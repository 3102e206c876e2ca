/**
 Cursor arithmetic of the discovery game (components/neobrutalism/info-game.tsx,
 `handleMove`). The N items are laid out row-major on a `side x side` grid, where
 `side` is the integer ceiling of the square root of N. The arithmetic is kept
 exactly as the source writes it, including JavaScript's truncating `%`.
 */
module Grid {
  import opened JsNumber

  datatype Direction = Up | Down | Left | Right

  /** Searches upward from `k` for the least `s` with `s * s >= n`. */
  function CeilSqrtFrom(n: nat, k: nat): (s: nat)
    requires k == 0 || (k - 1) * (k - 1) < n
    ensures k <= s
    ensures s * s >= n
    ensures s == 0 || (s - 1) * (s - 1) < n
    decreases n - k
  {
    if k * k >= n then k
    else
      MulSign(k, k);
      CeilSqrtFrom(n, k + 1)
  }

  /** The integer ceiling of the square root: the least `s` with `s * s >= n`.
      It replaces the source's floating-point `Math.ceil(Math.sqrt(n))`. */
  function CeilSqrt(n: nat): (s: nat)
    ensures s * s >= n
    ensures s == 0 || (s - 1) * (s - 1) < n
  {
    CeilSqrtFrom(n, 0)
  }

  /** The side of the grid the source lays N items out on (`gridSize`): the least `s`
      with `s * s >= n`, which for at least one item lies between 1 and N. */
  function Side(n: nat): (s: nat)
    ensures s * s >= n
    ensures s == 0 || (s - 1) * (s - 1) < n
    ensures n > 0 ==> 1 <= s <= n
  {
    CeilSqrtBounds(n);
    CeilSqrt(n)
  }

  lemma CeilSqrtBounds(n: nat)
    ensures n > 0 ==> 1 <= CeilSqrt(n) <= n
  {
    if n > 0 {
      var s := CeilSqrt(n);
      assert s * s >= n;
      MulSign(n, n);
      SquareOrder(n + 1, s);
    }
  }

  /** The cursor position after one move from `p` among `n` items, as `handleMove` computes it. */
  function MovePosition(p: int, n: nat, dir: Direction): (r: int)
    requires n > 0
    ensures p >= 0 ==> r >= 0
    ensures p >= 0 && (dir == Left || dir == Right) ==> r / Side(n) == p / Side(n)
  {
    var s := Side(n);
    RightStep(p, s);
    LeftStep(p, s);
    match dir
    case Up =>
      if p - s < 0 then p - s + n else p - s
    case Down =>
      if p + s >= n then p + s - n else p + s
    case Left =>
      if JsRem(p, s) == 0 then p + s - 1 else p - 1
    case Right =>
      if JsRem(p, s) == s - 1 then p - s + 1 else p + 1
  }

  /** The number of cells in the rows the grid actually uses: N rounded up to a multiple of `side`. */
  function Span(n: nat): (r: nat)
    requires n > 0
    ensures n <= r < n + Side(n)
    ensures r % Side(n) == 0
  {
    var s := Side(n);
    var rows := (n + s - 1) / s;
    MulSign(rows, s);
    ModUnique(rows * s, s, rows, 0);
    rows * s
  }

  /** Every move is closed over the rows the grid uses, whatever N is. */
  lemma MoveStaysInSpan(p: int, n: nat, dir: Direction)
    requires n > 0
    requires 0 <= p < Span(n)
    ensures 0 <= MovePosition(p, n, dir) < Span(n)
  {
    var s := Side(n);
    var m := Span(n);
    RightStep(p, s);
    LeftStep(p, s);
    AlignedGap(p, m, s);
    AlignedGap(p + 1, m, s);
  }

  /** When the items fill whole rows, every move maps an item position to an item position. */
  lemma MoveStaysInRange(p: int, n: nat, dir: Direction)
    requires n > 0 && n % Side(n) == 0
    requires 0 <= p < n
    ensures 0 <= MovePosition(p, n, dir) < n
  {
    AlignedGap(n, Span(n), Side(n));
    MoveStaysInSpan(p, n, dir);
  }

  /** With 7 items (side 3) the last row is ragged: moving left from position 6 leaves the items. */
  lemma LeftLeavesRaggedRow()
    ensures Side(7) == 3
    ensures MovePosition(6, 7, Left) == 8
  {
  }

  /** Nine items make a 3 x 3 grid. */
  lemma NineItemsSideThree()
    ensures Side(9) == 3
    ensures 9 % Side(9) == 0
  {
  }

  /** Right then left returns to the start from any non-negative position. */
  lemma RightThenLeft(p: int, n: nat)
    requires n > 0 && p >= 0
    ensures MovePosition(MovePosition(p, n, Right), n, Left) == p
  {
    var s := Side(n);
    RightStep(p, s);
  }

  /** Left then right returns to the start from any non-negative position. */
  lemma LeftThenRight(p: int, n: nat)
    requires n > 0 && p >= 0
    ensures MovePosition(MovePosition(p, n, Left), n, Right) == p
  {
    var s := Side(n);
    LeftStep(p, s);
  }

  /** Up then down returns to the start from any item position. */
  lemma UpThenDown(p: int, n: nat)
    requires n > 0 && 0 <= p < n
    ensures MovePosition(MovePosition(p, n, Up), n, Down) == p
  {
  }

  /** Down then up returns to the start from any item position. */
  lemma DownThenUp(p: int, n: nat)
    requires n > 0 && 0 <= p < n
    ensures MovePosition(MovePosition(p, n, Down), n, Up) == p
  {
  }

  // Arithmetic facts about remainders and products used by the proofs above.

  /** Column arithmetic of a step to the right. */
  lemma RightStep(p: int, s: int)
    requires s > 0
    ensures p >= 0 && p % s == s - 1 ==>
      p - s + 1 >= 0 && (p - s + 1) % s == 0 && (p + 1) % s == 0 && (p - s + 1) / s == p / s
    ensures p >= 0 && p % s != s - 1 ==> (p + 1) % s == p % s + 1 && (p + 1) / s == p / s
  {
    if p >= 0 {
      var q, r := p / s, p % s;
      MulSign(q, s);
      if r == s - 1 {
        ModUnique(p - s + 1, s, q, 0);
        ModUnique(p + 1, s, q + 1, 0);
      } else {
        ModUnique(p + 1, s, q, r + 1);
      }
    }
  }

  /** Column arithmetic of a step to the left. */
  lemma LeftStep(p: int, s: int)
    requires s > 0
    ensures p >= 0 && p % s == 0 ==> (p + s - 1) % s == s - 1 && (p + s - 1) / s == p / s
    ensures p >= 0 && p % s != 0 ==> p >= 1 && (p - 1) % s == p % s - 1 && (p - 1) / s == p / s
  {
    if p >= 0 {
      var q, r := p / s, p % s;
      MulSign(q, s);
      if r == 0 {
        ModUnique(p + s - 1, s, q, s - 1);
      } else {
        ModUnique(p - 1, s, q, r - 1);
      }
    }
  }

  /** Below an aligned bound, an aligned position has a whole row of room. */
  lemma AlignedGap(p: int, m: int, s: int)
    requires s > 0 && 0 <= p && m >= 0 && m % s == 0
    ensures p < m && p % s == 0 ==> p + s <= m
  {
    var a, b := p / s, m / s;
    MulSign(b - a, s);
    assert b * s - a * s == (b - a) * s;
  }

  lemma SquareOrder(a: int, b: int)
    ensures 0 <= a <= b ==> a * a <= b * b
  {
    if 0 <= a <= b {
      MulLeMul(a, b, a);
      MulLeMul(a, b, b);
    }
  }
}
