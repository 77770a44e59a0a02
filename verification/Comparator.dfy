/** Result-set comparison: cells are canonicalised, rows are compared as a multiset, and in
  * `ColumnsSuperset` mode a capped backtracking search assigns every gold column to a
  * distinct generated column. */
module Comparator {
  import opened Permutations
  import opened Text

  // ---------------------------------------------------------------- cells

  /** A driver value. A stamp is already its ISO text; `Other` is already its `str()`. */
  datatype Cell =
    | Null
    | Boolean(b: bool)
    | Number(x: real)
    | Text(s: string)
    | Stamp(iso: string)
    | Other(repr: string)

  /** What a cell is counted as. Booleans share the keys of 0 and 1, as Python's hashing does. */
  datatype Key = KNull | KNumber(x: real) | KText(s: string)

  function Pow10(n: nat): (p: real)
    ensures p >= 1.0
  {
    if n == 0 then 1.0 else 10.0 * Pow10(n - 1)
  }

  /** A number in units of the last kept digit. */
  function Scaled(x: real, ndigits: nat): real {
    x * Pow10(ndigits)
  }

  /** Nearest integer, ties to the even one. */
  function RoundHalfEven(s: real): int {
    var f := s.Floor;
    var d := s - f as real;
    if d < 0.5 then f else if d > 0.5 then f + 1 else if f % 2 == 0 then f else f + 1
  }

  function RoundTo(x: real, ndigits: nat): real {
    RoundHalfEven(Scaled(x, ndigits)) as real / Pow10(ndigits)
  }

  function CanonCell(c: Cell, ndigits: nat): Key {
    match c
    case Null => KNull
    case Boolean(b) => KNumber(if b then 1.0 else 0.0)
    case Number(x) => KNumber(RoundTo(x, ndigits))
    case Text(s) => KText(Strip(s))
    case Stamp(iso) => KText(iso)
    case Other(repr) => KText(repr)
  }

  /** Rounding up to at least k + 1 happens exactly past the midpoint k + 1/2 (a tie goes to
    * the even neighbour). */
  predicate RoundsPast(s: real, k: int) {
    var mid := k as real + 0.5;
    s > mid || (s == mid && k % 2 != 0)
  }

  lemma RoundsPastIsRounding(s: real, k: int)
    ensures RoundsPast(s, k) <==> RoundHalfEven(s) >= k + 1
  {
    var f := s.Floor;
    assert f as real <= s < f as real + 1.0;
    if k < f {
      assert k as real + 1.0 <= f as real;
    } else if k > f {
      assert f as real + 1.0 <= k as real;
    }
  }

  /** A rounding midpoint lies between the two scaled numbers. */
  predicate MidpointBetween(s: real, t: real, k: int) {
    RoundsPast(s, k) != RoundsPast(t, k)
  }

  lemma RoundsAlike(s: real, t: real)
    ensures RoundHalfEven(s) == RoundHalfEven(t) <==> forall k: int :: !MidpointBetween(s, t, k)
  {
    var rs, rt := RoundHalfEven(s), RoundHalfEven(t);
    if rs != rt {
      var k := if rs < rt then rs else rt;
      RoundsPastIsRounding(s, k);
      RoundsPastIsRounding(t, k);
      assert MidpointBetween(s, t, k);
    } else {
      forall k: int ensures !MidpointBetween(s, t, k) {
        RoundsPastIsRounding(s, k);
        RoundsPastIsRounding(t, k);
      }
    }
  }

  lemma SameQuotient(a: real, b: real, p: real)
    requires p > 0.0
    ensures a / p == b / p <==> a == b
  {
    assert (a / p) * p == a && (b / p) * p == b;
  }

  lemma SameClass(x: real, y: real, ndigits: nat)
    ensures CanonCell(Number(x), ndigits) == CanonCell(Number(y), ndigits)
      <==> RoundHalfEven(Scaled(x, ndigits)) == RoundHalfEven(Scaled(y, ndigits))
  {
    var rx, ry := RoundHalfEven(Scaled(x, ndigits)) as real, RoundHalfEven(Scaled(y, ndigits)) as real;
    SameQuotient(rx, ry, Pow10(ndigits));
  }

  /** Numbers are one class exactly when no rounding midpoint separates them. */
  lemma NumbersCompareEqual(x: real, y: real, ndigits: nat)
    ensures CanonCell(Number(x), ndigits) == CanonCell(Number(y), ndigits)
      <==> forall k: int :: !MidpointBetween(Scaled(x, ndigits), Scaled(y, ndigits), k)
  {
    SameClass(x, y, ndigits);
    RoundsAlike(Scaled(x, ndigits), Scaled(y, ndigits));
  }

  lemma RoundAlikeIsNear(s: real, t: real)
    requires RoundHalfEven(s) == RoundHalfEven(t)
    ensures -1.0 <= s - t <= 1.0
  {}

  /** One class never spans more than one unit of the last kept digit. */
  lemma EqualNumbersAreClose(x: real, y: real, ndigits: nat)
    requires CanonCell(Number(x), ndigits) == CanonCell(Number(y), ndigits)
    ensures -1.0 <= Scaled(x, ndigits) - Scaled(y, ndigits) <= 1.0
  {
    SameClass(x, y, ndigits);
    RoundAlikeIsNear(Scaled(x, ndigits), Scaled(y, ndigits));
  }

  /** So values that differ by far less than the tolerance can still compare unequal. */
  lemma CloseNumbersMayDiffer()
    ensures CanonCell(Number(0.4), 0) != CanonCell(Number(0.6), 0)
    ensures CanonCell(Number(0.00000049), 6) != CanonCell(Number(0.00000051), 6)
  {
    assert Pow10(2) == 10.0 * Pow10(1) == 100.0;
    assert Pow10(4) == 10.0 * Pow10(3) == 10000.0;
    assert Pow10(6) == 10.0 * Pow10(5) == 1000000.0;
    assert RoundHalfEven(0.49) == 0 && RoundHalfEven(0.51) == 1;
  }

  predicate IsNumeric(c: Cell) {
    c.Boolean? || c.Number?
  }

  /** A boolean counts as 0 or 1. */
  function Value(c: Cell): real
    requires IsNumeric(c)
  {
    match c
    case Boolean(b) => if b then 1.0 else 0.0
    case Number(x) => x
  }

  /** Only a text is trimmed; a stamp and any other rendered value count as they are. */
  function Content(c: Cell): string
    requires !c.Null? && !IsNumeric(c)
  {
    match c
    case Text(s) => Strip(s)
    case Stamp(iso) => iso
    case Other(repr) => repr
  }

  /** The documented classes, over the driver's values: nulls are alike and like nothing else; numbers
    * are alike when no rounding midpoint separates them; everything else by its text. */
  ghost predicate SameCell(a: Cell, b: Cell, nd: nat) {
    || (a.Null? && b.Null?)
    || (IsNumeric(a) && IsNumeric(b) && forall k: int :: !MidpointBetween(Scaled(Value(a), nd), Scaled(Value(b), nd), k))
    || (!a.Null? && !b.Null? && !IsNumeric(a) && !IsNumeric(b) && Content(a) == Content(b))
  }

  lemma {:induction false} Pow10IsWhole(n: nat) returns (p: int)
    ensures Pow10(n) == p as real && p >= 1
  {
    p := 1;
    if n > 0 {
      p := Pow10IsWhole(n - 1);
      p := 10 * p;
    }
  }

  lemma BooleanIsNumber(b: bool, nd: nat)
    ensures CanonCell(Boolean(b), nd) == CanonCell(Number(if b then 1.0 else 0.0), nd)
  {
    var p := Pow10IsWhole(nd);
    WholeRounds(if b then p else 0);
    hide Pow10, RoundHalfEven;
    assert Scaled(if b then 1.0 else 0.0, nd) == (if b then p else 0) as real;
    OwnShare(p as real);
  }

  lemma OwnShare(p: real)
    requires p > 0.0
    ensures p / p == 1.0 && 0.0 / p == 0.0
  {}

  lemma WholeRounds(n: int)
    ensures RoundHalfEven(n as real) == n
  {}

  /** Two cells fall in one class exactly when they are the same cell. */
  lemma SameCellIff(a: Cell, b: Cell, nd: nat)
    ensures CanonCell(a, nd) == CanonCell(b, nd) <==> SameCell(a, b, nd)
  {
    hide RoundTo, Strip, MidpointBetween;
    if IsNumeric(a) && IsNumeric(b) {
      NumbersCompareEqual(Value(a), Value(b), nd);
      BooleanIsNumber(true, nd);
      BooleanIsNumber(false, nd);
    }
  }

  // ---------------------------------------------------------------- rows

  type Row = seq<Key>

  datatype QueryResult = QueryResult(columns: nat, rows: seq<seq<Cell>>) {
    /** Every row has one cell per column: what a database returns. */
    predicate WellFormed() {
      forall row | row in rows :: |row| == columns
    }
  }

  function CanonRow(row: seq<Cell>, ndigits: nat): Row {
    Map(c => CanonCell(c, ndigits), row)
  }

  function CanonRows(r: QueryResult, ndigits: nat): seq<Row> {
    Map(row => CanonRow(row, ndigits), r.rows)
  }

  predicate Rect(rows: seq<Row>, width: nat) {
    forall row | row in rows :: |row| == width
  }

  lemma CanonRowsRect(r: QueryResult, ndigits: nat)
    requires r.WellFormed()
    ensures Rect(CanonRows(r, ndigits), r.columns)
  {
    var rows := CanonRows(r, ndigits);
    forall row | row in rows ensures |row| == r.columns {
      var i :| 0 <= i < |rows| && rows[i] == row;
      assert r.rows[i] in r.rows;
    }
  }

  function CellAt(j: nat): Row --> Key {
    (row: Row) requires j < |row| => row[j]
  }

  function Column(rows: seq<Row>, j: nat): seq<Key>
    requires forall row | row in rows :: j < |row|
  {
    Map(CellAt(j), rows)
  }

  predicate InRange(a: seq<nat>, width: nat) {
    forall k | 0 <= k < |a| :: a[k] < width
  }

  function Picker(a: seq<nat>, width: nat): Row --> Row
    requires InRange(a, width)
  {
    (row: Row) requires |row| == width => seq(|a|, k requires 0 <= k < |a| => row[a[k]])
  }

  /** The rows restricted to the columns `a`, in that order. */
  function Project(rows: seq<Row>, width: nat, a: seq<nat>): seq<Row>
    requires Rect(rows, width) && InRange(a, width)
  {
    Map(Picker(a, width), rows)
  }

  /** The documented meaning of a superset match: an injective choice of generated columns that
    * reproduces gold's row multiset. */
  predicate IsWitness(gold: seq<Row>, goldWidth: nat, gen: seq<Row>, genWidth: nat, a: seq<nat>)
    requires Rect(gen, genWidth)
  {
    |a| == goldWidth && InRange(a, genWidth) && Distinct(a)
    && multiset(Project(gen, genWidth, a)) == multiset(gold)
  }

  // ---------------------------------------------------------------- matching tables cell by cell

  /** The row has gold's cells in the columns `a`. */
  ghost predicate HoldsRow(gold: seq<Cell>, row: seq<Cell>, a: seq<nat>, nd: nat) {
    |gold| == |a| && forall k | 0 <= k < |a| :: a[k] < |row| && SameCell(gold[k], row[a[k]], nd)
  }

  /** Distinct columns `a` of the generated result hold gold's rows, each in a row of its own and with
    * none left over. */
  ghost predicate Matches(gold: QueryResult, gen: QueryResult, nd: nat, a: seq<nat>, m: seq<nat>) {
    && |a| == gold.columns && Distinct(a) && (forall k | 0 <= k < |a| :: a[k] < gen.columns)
    && |m| == |gold.rows| == |gen.rows| && Distinct(m)
    && forall i | 0 <= i < |m| :: m[i] < |gen.rows| && HoldsRow(gold.rows[i], gen.rows[m[i]], a, nd)
  }

  /** A row of gold equals a projected row exactly when their cells are the same. */
  lemma RowsAgreeIff(gold: seq<Cell>, row: seq<Cell>, width: nat, a: seq<nat>, nd: nat)
    requires InRange(a, width) && |gold| == |a| && |row| == width
    ensures CanonRow(gold, nd) == Picker(a, width)(CanonRow(row, nd)) <==> HoldsRow(gold, row, a, nd)
  {
    hide SameCell, CanonCell;
    var picked := Picker(a, width)(CanonRow(row, nd));
    forall k | 0 <= k < |a|
      ensures picked[k] == CanonCell(row[a[k]], nd) && (CanonRow(gold, nd)[k] == picked[k] <==> SameCell(gold[k], row[a[k]], nd))
    {
      SameCellIff(gold[k], row[a[k]], nd);
    }
  }

  lemma WitnessMatches(gold: QueryResult, gen: QueryResult, nd: nat, a: seq<nat>) returns (m: seq<nat>)
    requires gold.WellFormed() && gen.WellFormed() && Rect(CanonRows(gen, nd), gen.columns)
    requires IsWitness(CanonRows(gold, nd), gold.columns, CanonRows(gen, nd), gen.columns, a)
    ensures Matches(gold, gen, nd, a, m)
  {
    hide HoldsRow, CanonRow, Picker, Distinct;
    var projected := Project(CanonRows(gen, nd), gen.columns, a);
    m := EqualArePaired(CanonRows(gold, nd), projected);
    forall i | 0 <= i < |m| ensures HoldsRow(gold.rows[i], gen.rows[m[i]], a, nd) {
      assert gold.rows[i] in gold.rows && gen.rows[m[i]] in gen.rows;
      assert CanonRows(gold, nd)[i] == projected[m[i]];
      RowsAgreeIff(gold.rows[i], gen.rows[m[i]], gen.columns, a, nd);
    }
  }

  lemma MatchIsWitness(gold: QueryResult, gen: QueryResult, nd: nat, a: seq<nat>, m: seq<nat>)
    requires gold.WellFormed() && gen.WellFormed() && Rect(CanonRows(gen, nd), gen.columns)
    requires Matches(gold, gen, nd, a, m)
    ensures IsWitness(CanonRows(gold, nd), gold.columns, CanonRows(gen, nd), gen.columns, a)
  {
    hide HoldsRow, CanonRow, Picker, Distinct;
    var projected := Project(CanonRows(gen, nd), gen.columns, a);
    forall i | 0 <= i < |m| ensures CanonRows(gold, nd)[i] == projected[m[i]] {
      assert gold.rows[i] in gold.rows && gen.rows[m[i]] in gen.rows;
      RowsAgreeIff(gold.rows[i], gen.rows[m[i]], gen.columns, a, nd);
    }
    PairedAreEqual(CanonRows(gold, nd), projected, m);
  }

  // ---------------------------------------------------------------- pruning

  /** `[j for j in range(n) if f(j)]`. */
  function Below(n: nat, f: nat --> bool): (r: seq<nat>)
    requires forall j: nat | j < n :: f.requires(j)
    ensures forall j: nat :: j in r <==> j < n && f(j)
  {
    if n == 0 then [] else Below(n - 1, f) + (if f(n - 1) then [n - 1] else [])
  }

  predicate Ascending(c: seq<nat>) {
    forall x, y | 0 <= x < y < |c| :: c[x] < c[y]
  }

  lemma {:induction false} BelowAscends(n: nat, f: nat --> bool)
    requires forall j: nat | j < n :: f.requires(j)
    ensures Ascending(Below(n, f))
  {
    if n > 0 {
      var rest := Below(n - 1, f);
      BelowAscends(n - 1, f);
      assert Below(n, f) == rest + (if f(n - 1) then [n - 1] else []);
      hide Below, Ascending;
      forall x | 0 <= x < |rest| ensures rest[x] < n - 1 {
        assert rest[x] in rest;
      }
      AscendAppend(rest, n - 1);
      assert rest + [] == rest;
    }
  }

  lemma AscendAppend(c: seq<nat>, x: nat)
    requires Ascending(c) && forall k | 0 <= k < |c| :: c[k] < x
    ensures Ascending(c + [x])
  {}

  /** Generated columns whose value multiset equals gold column `i`'s. */
  function SameMarginal(gold: seq<Row>, gen: seq<Row>, genWidth: nat, i: nat): nat --> bool
    requires forall row | row in gold :: i < |row|
    requires Rect(gen, genWidth)
  {
    (j: nat) requires j < genWidth => multiset(Column(gen, j)) == multiset(Column(gold, i))
  }

  function Candidates(gold: seq<Row>, goldWidth: nat, gen: seq<Row>, genWidth: nat): (c: seq<seq<nat>>)
    requires Rect(gold, goldWidth) && Rect(gen, genWidth)
  {
    seq(goldWidth, i requires 0 <= i < goldWidth => Below(genWidth, SameMarginal(gold, gen, genWidth, i)))
  }

  lemma CandidatesInRange(gold: seq<Row>, goldWidth: nat, gen: seq<Row>, genWidth: nat)
    requires Rect(gold, goldWidth) && Rect(gen, genWidth)
    ensures forall i | 0 <= i < goldWidth ::
      InRange(Candidates(gold, goldWidth, gen, genWidth)[i], genWidth)
  {
    forall i | 0 <= i < goldWidth
      ensures InRange(Candidates(gold, goldWidth, gen, genWidth)[i], genWidth)
    {
      var c := Candidates(gold, goldWidth, gen, genWidth)[i];
      assert forall k | 0 <= k < |c| :: c[k] in c;
    }
  }

  /** Column `j` is a candidate for gold's column `i` exactly when the two hold the same values as often. */
  lemma CandidateIff(gold: seq<Row>, goldWidth: nat, gen: seq<Row>, genWidth: nat, i: nat, j: nat)
    requires Rect(gold, goldWidth) && Rect(gen, genWidth) && i < goldWidth && j < genWidth
    ensures j in Candidates(gold, goldWidth, gen, genWidth)[i] <==>
      multiset(seq(|gen|, r requires 0 <= r < |gen| => if j < |gen[r]| then gen[r][j] else KNull))
      == multiset(seq(|gold|, r requires 0 <= r < |gold| => if i < |gold[r]| then gold[r][i] else KNull))
  {
    forall r | 0 <= r < |gen| ensures j < |gen[r]| {
      assert gen[r] in gen;
    }
    forall r | 0 <= r < |gold| ensures i < |gold[r]| {
      assert gold[r] in gold;
    }
    assert Column(gen, j) == seq(|gen|, r requires 0 <= r < |gen| => if j < |gen[r]| then gen[r][j] else KNull);
    assert Column(gold, i) == seq(|gold|, r requires 0 <= r < |gold| => if i < |gold[r]| then gold[r][i] else KNull);
  }

  /** An assignment the search may build: distinct columns, each a candidate for its position. */
  predicate Admissible(cands: seq<seq<nat>>, a: seq<nat>) {
    |a| <= |cands| && Distinct(a) && forall k | 0 <= k < |a| :: a[k] in cands[k]
  }

  /** The pruning loses nothing: equal projected multisets force equal column marginals. */
  lemma WitnessIsAdmissible(gold: seq<Row>, goldWidth: nat, gen: seq<Row>, genWidth: nat, a: seq<nat>)
    requires Rect(gold, goldWidth) && Rect(gen, genWidth)
    requires IsWitness(gold, goldWidth, gen, genWidth, a)
    ensures Admissible(Candidates(gold, goldWidth, gen, genWidth), a)
  {
    var projected := Project(gen, genWidth, a);
    forall k | 0 <= k < |a| ensures a[k] in Candidates(gold, goldWidth, gen, genWidth)[k] {
      forall row | row in projected ensures k < |row| {}
      MapKeepsPermutation(CellAt(k), projected, gold);
      assert Column(projected, k) == Column(gen, a[k]);
    }
  }

  // ---------------------------------------------------------------- the search space

  /** All complete assignments extending `a`, in the order the search visits them. */
  function Leaves(cands: seq<seq<nat>>, a: seq<nat>): seq<seq<nat>>
    requires |a| <= |cands|
    decreases |cands| - |a|, 1, 0
  {
    if |a| == |cands| then [a] else LeavesBefore(cands, a, |cands[|a|]|)
  }

  /** Those reached through the first `c` candidates of the next column. */
  function LeavesBefore(cands: seq<seq<nat>>, a: seq<nat>, c: nat): seq<seq<nat>>
    requires |a| < |cands| && c <= |cands[|a|]|
    decreases |cands| - |a|, 0, c
  {
    if c == 0 then [] else
      var j := cands[|a|][c - 1];
      LeavesBefore(cands, a, c - 1) + (if j in a then [] else Leaves(cands, a + [j]))
  }

  lemma {:induction false} LeavesBeforeIsPrefix(cands: seq<seq<nat>>, a: seq<nat>, c: nat, d: nat)
    requires |a| < |cands| && c <= d <= |cands[|a|]|
    ensures LeavesBefore(cands, a, c) <= LeavesBefore(cands, a, d)
    decreases d
  {
    if c < d {
      LeavesBeforeIsPrefix(cands, a, c, d - 1);
    }
  }

  /** Soundness of the enumeration: only admissible complete extensions are visited. */
  lemma {:induction false} LeavesAreAdmissible(cands: seq<seq<nat>>, a: seq<nat>, leaf: seq<nat>)
    requires Admissible(cands, a) && leaf in Leaves(cands, a)
    ensures Admissible(cands, leaf) && |leaf| == |cands| && a <= leaf
    decreases |cands| - |a|, 1, 0
  {
    if |a| < |cands| {
      LeavesBeforeAreAdmissible(cands, a, |cands[|a|]|, leaf);
    }
  }

  lemma {:induction false} LeavesBeforeAreAdmissible(cands: seq<seq<nat>>, a: seq<nat>, c: nat, leaf: seq<nat>)
    requires Admissible(cands, a) && |a| < |cands| && c <= |cands[|a|]|
    requires leaf in LeavesBefore(cands, a, c)
    ensures Admissible(cands, leaf) && |leaf| == |cands| && a <= leaf
    decreases |cands| - |a|, 0, c
  {
    var j := cands[|a|][c - 1];
    if leaf in LeavesBefore(cands, a, c - 1) {
      LeavesBeforeAreAdmissible(cands, a, c - 1, leaf);
    } else {
      LeavesAreAdmissible(cands, a + [j], leaf);
    }
  }

  /** Completeness of the enumeration: every admissible complete extension is visited. */
  lemma {:induction false} AdmissibleIsALeaf(cands: seq<seq<nat>>, a: seq<nat>, leaf: seq<nat>)
    requires Admissible(cands, leaf) && |leaf| == |cands| && a <= leaf
    ensures leaf in Leaves(cands, a)
    decreases |cands| - |a|
  {
    if |a| == |cands| {
      assert leaf == a;
    } else {
      var i := |a|;
      var j := leaf[i];
      var c :| 0 <= c < |cands[i]| && cands[i][c] == j;
      assert forall k | 0 <= k < i :: a[k] == leaf[k] != leaf[i];
      assert a + [j] <= leaf;
      AdmissibleIsALeaf(cands, a + [j], leaf);
      LeafBelow(cands, a, c, leaf);
    }
  }

  lemma LeafBelow(cands: seq<seq<nat>>, a: seq<nat>, c: nat, leaf: seq<nat>)
    requires |a| < |cands| && c < |cands[|a|]| && cands[|a|][c] !in a
    requires leaf in Leaves(cands, a + [cands[|a|][c]])
    ensures leaf in Leaves(cands, a)
  {
    assert leaf in LeavesBefore(cands, a, c + 1);
    LeavesBeforeIsPrefix(cands, a, c + 1, |cands[|a|]|);
  }

  // ---------------------------------------------------------------- the search

  function Min(a: int, b: int): int {
    if a <= b then a else b
  }

  /** A superset problem on canonical rows, with the attempt cap. */
  datatype Problem = Problem(gold: seq<Row>, gen: seq<Row>, genWidth: nat, cands: seq<seq<nat>>, cap: nat) {
    predicate Valid() {
      Rect(gen, genWidth) && forall i | 0 <= i < |cands| :: InRange(cands[i], genWidth)
    }

    predicate Reproduces(leaf: seq<nat>)
      requires Valid()
    {
      InRange(leaf, genWidth) && multiset(Project(gen, genWidth, leaf)) == multiset(gold)
    }

    /** The position of the first leaf that reproduces gold, or `|leaves|` when none does. */
    function FirstHit(leaves: seq<seq<nat>>): (h: nat)
      requires Valid()
      ensures h <= |leaves|
    {
      if leaves == [] then 0
      else if Reproduces(leaves[0]) then 0
      else 1 + FirstHit(leaves[1..])
    }

    lemma {:induction false} FirstHitIsFirst(leaves: seq<seq<nat>>)
      requires Valid()
      ensures FirstHit(leaves) < |leaves| ==> Reproduces(leaves[FirstHit(leaves)])
      ensures forall k | 0 <= k < FirstHit(leaves) :: !Reproduces(leaves[k])
    {
      if leaves != [] && !Reproduces(leaves[0]) {
        FirstHitIsFirst(leaves[1..]);
      }
    }

    lemma {:induction false} FirstHitConcat(a: seq<seq<nat>>, b: seq<seq<nat>>)
      requires Valid()
      ensures FirstHit(a + b) == if FirstHit(a) < |a| then FirstHit(a) else |a| + FirstHit(b)
    {
      if a == [] {
        assert a + b == b;
      } else {
        assert (a + b)[1..] == a[1..] + b;
        FirstHitConcat(a[1..], b);
      }
    }

    lemma FirstHitOfPrefix(a: seq<seq<nat>>, all: seq<seq<nat>>)
      requires Valid() && a <= all && FirstHit(a) < |a|
      ensures FirstHit(all) == FirstHit(a)
    {
      assert all == a + all[|a|..];
      FirstHitConcat(a, all[|a|..]);
    }

    lemma AdmissibleInRange(a: seq<nat>)
      requires Valid() && Admissible(cands, a)
      ensures InRange(a, genWidth)
    {
      forall k | 0 <= k < |a| ensures a[k] < genWidth {
        var c :| 0 <= c < |cands[k]| && cands[k][c] == a[k];
      }
    }

    /** `n` attempts have been spent on `leaves`, out of `left`, and none of them hit. */
    predicate Missed(leaves: seq<seq<nat>>, left: nat, n: int)
      requires Valid()
    {
      n == Min(left, |leaves|) && FirstHit(leaves) >= n
    }

    /** The leaves below `a` whose next column is its `c`-th candidate. */
    function Under(a: seq<nat>, c: nat): seq<seq<nat>>
      requires |a| < |cands| && c < |cands[|a|]|
    {
      var j := cands[|a|][c];
      if j in a then [] else Leaves(cands, a + [j])
    }

    lemma MissedNext(a: seq<nat>, c: nat, left: nat, n: int, m: int)
      requires Valid() && |a| < |cands| && c < |cands[|a|]| && n <= left
      requires Missed(LeavesBefore(cands, a, c), left, n) && Missed(Under(a, c), left - n, m)
      ensures Missed(LeavesBefore(cands, a, c + 1), left, n + m)
    {
      FirstHitConcat(LeavesBefore(cands, a, c), Under(a, c));
    }

    lemma HitNext(a: seq<nat>, c: nat, left: nat, n: int)
      requires Valid() && |a| < |cands| && c < |cands[|a|]| && n <= left
      requires Missed(LeavesBefore(cands, a, c), left, n)
      requires FirstHit(Under(a, c)) < |Under(a, c)| && FirstHit(Under(a, c)) < left - n
      ensures var all := Leaves(cands, a);
        && FirstHit(all) == n + FirstHit(Under(a, c)) < |all|
        && all[FirstHit(all)] == Under(a, c)[FirstHit(Under(a, c))]
    {
      hide FirstHit, Rect;
      var seen, all := LeavesBefore(cands, a, c + 1), Leaves(cands, a);
      FirstHitConcat(LeavesBefore(cands, a, c), Under(a, c));
      LeavesBeforeIsPrefix(cands, a, c + 1, |cands[|a|]|);
      FirstHitOfPrefix(seen, all);
      PrefixAt(seen, all, FirstHit(all));
    }
  }

  /** The nested `_search`: one mutable assignment, the set of used columns, and an attempt
    * counter shared by the whole recursion. */
  class SupersetSearch {
    const p: Problem
    var assignment: seq<nat>
    var used: set<nat>
    var attempts: nat

    ghost predicate Valid()
      reads this
    {
      p.Valid() && Admissible(p.cands, assignment) && forall j :: j in used <==> j in assignment
    }

    constructor (p: Problem)
      requires p.Valid()
      ensures Valid() && assignment == [] && attempts == 0 && this.p == p
    {
      this.p := p;
      assignment, used, attempts := [], {}, 0;
    }

    /** What a search over `leaves` leaves behind: it found the first hit within the attempts
      * left, or spent them and put the assignment and the used set back. */
    ghost predicate Searched(leaves: seq<seq<nat>>, found: bool, begun: nat, start: seq<nat>, startUsed: set<nat>)
      requires p.Valid()
      reads this
    {
      var h := p.FirstHit(leaves);
      && (found <==> h < |leaves| && h < p.cap - begun)
      && (found ==> attempts == begun + h + 1 && assignment == leaves[h])
      && (!found ==> attempts == begun + Min(p.cap - begun, |leaves|))
      && (!found ==> assignment == start && used == startUsed)
    }

    /** One attempt: compare the projection with gold. */
    method TryComplete() returns (found: bool)
      requires Valid() && attempts < p.cap && |assignment| == |p.cands|
      modifies this`attempts
      ensures Valid()
      ensures Searched([assignment], found, old(attempts), assignment, used)
    {
      p.AdmissibleInRange(assignment);
      attempts := attempts + 1;
      found := multiset(Project(p.gen, p.genWidth, assignment)) == multiset(p.gold);
    }

    /** The body of the candidate loop: push, search below, pop on failure. */
    method TryColumn(j: nat) returns (found: bool)
      requires Valid() && attempts < p.cap
      requires |assignment| < |p.cands| && j in p.cands[|assignment|] && j !in used
      modifies this
      ensures Valid()
      ensures Searched(Leaves(p.cands, old(assignment) + [j]), found, old(attempts), old(assignment), old(used))
      decreases |p.cands| - |assignment|, 0
    {
      var i := |assignment|;
      assignment := assignment + [j];
      used := used + {j};
      found := Search();
      if !found {
        assignment := assignment[..i];
        used := used - {j};
        assert assignment == old(assignment);
      }
    }

    /** Tries the leaves below the current assignment in order, until one reproduces gold or
      * the attempts run out. */
    method Search() returns (found: bool)
      requires Valid() && attempts < p.cap
      modifies this
      ensures Valid()
      ensures Searched(Leaves(p.cands, old(assignment)), found, old(attempts), old(assignment), old(used))
      decreases |p.cands| - |assignment|, 1
    {
      hide Rect, Problem.FirstHit;
      var i := |assignment|;
      ghost var start, begun := assignment, attempts;
      if i == |p.cands| {
        found := TryComplete();
        return;
      }
      var c := 0;
      while c < |p.cands[i]|
        invariant c <= |p.cands[i]| && Valid()
        invariant assignment == start && used == old(used) && begun <= attempts <= p.cap
        invariant p.Missed(LeavesBefore(p.cands, start, c), p.cap - begun, attempts - begun)
      {
        var j := p.cands[i][c];
        ghost var before := attempts;
        if !(j in used || attempts >= p.cap) {
          found := TryColumn(j);
          if found {
            p.HitNext(start, c, p.cap - begun, before - begun);
            return;
          }
        }
        p.MissedNext(start, c, p.cap - begun, before - begun, attempts - before);
        c := c + 1;
      }
      found := false;
    }
  }

  // ---------------------------------------------------------------- verdicts

  const MAX_ATTEMPTS: nat := 20000

  datatype MatchMode = Exact | ColumnsSuperset

  datatype Reason =
    | RowsMatch(rows: nat)
    | ColumnCountDiffers(gold: nat, generated: nat)
    | RowSetsDiffer(onlyGold: nat, onlyGenerated: nat)
    | FewerColumns(gold: nat, generated: nat)
    | RowCountDiffers(gold: nat, generated: nat)
    | NoColumnReproduces(goldColumn: nat)
    | MatchesWithExtra(extra: nat)
    | AttemptCapHit
    | NotReproduced

  datatype Comparison = Comparison(equal: bool, reason: Reason)

  predicate ExactlyEqual(gold: QueryResult, gen: QueryResult, nd: nat) {
    gold.columns == gen.columns && multiset(CanonRows(gold, nd)) == multiset(CanonRows(gen, nd))
  }

  /** Some injective choice of generated columns reproduces gold. */
  ghost predicate HasSuperset(gold: QueryResult, gen: QueryResult, nd: nat)
    requires gen.WellFormed()
  {
    CanonRowsRect(gen, nd);
    exists a: seq<nat> :: IsWitness(CanonRows(gold, nd), gold.columns, CanonRows(gen, nd), gen.columns, a)
  }

  function ProblemFor(gold: QueryResult, gen: QueryResult, nd: nat): (p: Problem)
    requires gold.WellFormed() && gen.WellFormed()
    ensures p.Valid() && |p.cands| == gold.columns && p.cap == MAX_ATTEMPTS
  {
    CanonRowsRect(gold, nd);
    CanonRowsRect(gen, nd);
    var goldRows, genRows := CanonRows(gold, nd), CanonRows(gen, nd);
    CandidatesInRange(goldRows, gold.columns, genRows, gen.columns);
    Problem(goldRows, genRows, gen.columns, Candidates(goldRows, gold.columns, genRows, gen.columns), MAX_ATTEMPTS)
  }

  lemma {:induction false} Pigeonhole(a: seq<nat>, width: nat)
    requires InRange(a, width) && Distinct(a)
    ensures |a| <= width
  {
    if a != [] {
      assert a[0] < width;
      if width - 1 in a {
        var i :| 0 <= i < |a| && a[i] == width - 1;
        var rest := Without(a, i);
        assert forall k | 0 <= k < |rest| :: rest[k] == a[if k < i then k else k + 1];
        Pigeonhole(rest, width - 1);
      } else {
        assert forall k | 0 <= k < |a| :: a[k] in a;
        Pigeonhole(a, width - 1);
      }
    }
  }

  lemma WitnessIsAHit(gold: QueryResult, gen: QueryResult, nd: nat, a: seq<nat>)
    requires gold.WellFormed() && gen.WellFormed()
    requires var p := ProblemFor(gold, gen, nd); IsWitness(p.gold, gold.columns, p.gen, gen.columns, a)
    ensures var p := ProblemFor(gold, gen, nd);
      p.FirstHit(Leaves(p.cands, [])) < |Leaves(p.cands, [])|
  {
    CanonRowsRect(gold, nd);
    var p := ProblemFor(gold, gen, nd);
    var leaves := Leaves(p.cands, []);
    WitnessIsAdmissible(p.gold, gold.columns, p.gen, gen.columns, a);
    AdmissibleIsALeaf(p.cands, [], a);
    p.FirstHitIsFirst(leaves);
    var k :| 0 <= k < |leaves| && leaves[k] == a;
    assert p.Reproduces(leaves[k]);
  }

  lemma HitIsAWitness(gold: QueryResult, gen: QueryResult, nd: nat) returns (a: seq<nat>)
    requires gold.WellFormed() && gen.WellFormed()
    requires var p := ProblemFor(gold, gen, nd);
      p.FirstHit(Leaves(p.cands, [])) < |Leaves(p.cands, [])|
    ensures var p := ProblemFor(gold, gen, nd); IsWitness(p.gold, gold.columns, p.gen, gen.columns, a)
  {
    var p := ProblemFor(gold, gen, nd);
    var leaves := Leaves(p.cands, []);
    a := leaves[p.FirstHit(leaves)];
    p.FirstHitIsFirst(leaves);
    LeavesAreAdmissible(p.cands, [], a);
  }

  /** The documented superset relation holds exactly when the enumeration contains a hit. */
  lemma SupersetIffHit(gold: QueryResult, gen: QueryResult, nd: nat)
    requires gold.WellFormed() && gen.WellFormed()
    ensures var p := ProblemFor(gold, gen, nd);
      HasSuperset(gold, gen, nd) <==> p.FirstHit(Leaves(p.cands, [])) < |Leaves(p.cands, [])|
    ensures HasSuperset(gold, gen, nd) ==> gold.columns <= gen.columns && |gold.rows| == |gen.rows|
  {
    hide Leaves;
    var p := ProblemFor(gold, gen, nd);
    if HasSuperset(gold, gen, nd) {
      var a: seq<nat> :| IsWitness(p.gold, gold.columns, p.gen, gen.columns, a);
      WitnessIsAHit(gold, gen, nd, a);
      Pigeonhole(a, gen.columns);
      assert |p.gold| == |multiset(p.gold)| == |p.gen|;
    }
    if p.FirstHit(Leaves(p.cands, [])) < |Leaves(p.cands, [])| {
      var a := HitIsAWitness(gold, gen, nd);
    }
  }

  /** A gold column with no candidate leaves nothing to enumerate. */
  lemma EmptyCandidateEmptiesSearch(cands: seq<seq<nat>>, i: nat)
    requires i < |cands| && cands[i] == []
    ensures Leaves(cands, []) == []
  {
    if Leaves(cands, []) != [] {
      LeavesAreAdmissible(cands, [], Leaves(cands, [])[0]);
      assert false;
    }
  }

  /** The reason given is true of the two results, and is one of the mode's. */
  ghost predicate ReasonHolds(gold: QueryResult, gen: QueryResult, nd: nat, mode: MatchMode, r: Comparison)
    requires gold.WellFormed() && gen.WellFormed()
  {
    match r.reason
    case RowsMatch(rows) => mode == Exact && r.equal && rows == |gold.rows| == |gen.rows|
    case ColumnCountDiffers(a, b) => mode == Exact && !r.equal && a == gold.columns != gen.columns == b
    case RowSetsDiffer(a, b) =>
      var goldMs, genMs := multiset(CanonRows(gold, nd)), multiset(CanonRows(gen, nd));
      mode == Exact && !r.equal && a == |goldMs - genMs| && b == |genMs - goldMs| && a + b > 0 && a - b == |gold.rows| - |gen.rows|
    case FewerColumns(a, b) => mode == ColumnsSuperset && !r.equal && a == gold.columns > gen.columns == b
    case RowCountDiffers(a, b) => mode == ColumnsSuperset && !r.equal && a == |gold.rows| != |gen.rows| == b
    case NoColumnReproduces(i) =>
      mode == ColumnsSuperset && !r.equal && i < gold.columns && ProblemFor(gold, gen, nd).cands[i] == []
    case MatchesWithExtra(extra) => mode == ColumnsSuperset && r.equal && gold.columns + extra == gen.columns
    case AttemptCapHit => mode == ColumnsSuperset && !r.equal
    case NotReproduced => mode == ColumnsSuperset && !r.equal
  }

  lemma SupersetReasons(gold: QueryResult, gen: QueryResult, nd: nat)
    requires gold.WellFormed() && gen.WellFormed()
    ensures gen.columns < gold.columns ==>
      ReasonHolds(gold, gen, nd, ColumnsSuperset, Comparison(false, FewerColumns(gold.columns, gen.columns)))
    ensures |gold.rows| != |gen.rows| ==>
      ReasonHolds(gold, gen, nd, ColumnsSuperset, Comparison(false, RowCountDiffers(|gold.rows|, |gen.rows|)))
    ensures forall i: nat | i < gold.columns && ProblemFor(gold, gen, nd).cands[i] == [] ::
      ReasonHolds(gold, gen, nd, ColumnsSuperset, Comparison(false, NoColumnReproduces(i)))
    ensures gold.columns <= gen.columns ==>
      ReasonHolds(gold, gen, nd, ColumnsSuperset, Comparison(true, MatchesWithExtra(gen.columns - gold.columns)))
    ensures ReasonHolds(gold, gen, nd, ColumnsSuperset, Comparison(false, AttemptCapHit))
    ensures ReasonHolds(gold, gen, nd, ColumnsSuperset, Comparison(false, NotReproduced))
  {
    hide ProblemFor, CanonRow, QueryResult.WellFormed, Rect;
  }

  /** `_compare_superset`: equal exactly when a hit lies within the first `MAX_ATTEMPTS` leaves,
    * so the verdict is the documented relation whenever the cap is not the reason given. */
  method CompareSuperset(gold: QueryResult, gen: QueryResult, nd: nat) returns (r: Comparison)
    requires gold.WellFormed() && gen.WellFormed()
    ensures var p := ProblemFor(gold, gen, nd);
      r.equal <==> HasSuperset(gold, gen, nd) && p.FirstHit(Leaves(p.cands, [])) < 20000
    ensures r.reason != AttemptCapHit ==> (r.equal <==> HasSuperset(gold, gen, nd))
    ensures r.reason == AttemptCapHit ==> !r.equal && 20000 <= |Leaves(ProblemFor(gold, gen, nd).cands, [])|
    ensures ReasonHolds(gold, gen, nd, ColumnsSuperset, r)
  {
    hide ReasonHolds;
    SupersetReasons(gold, gen, nd);
    SupersetIffHit(gold, gen, nd);
    if gen.columns < gold.columns {
      return Comparison(false, FewerColumns(gold.columns, gen.columns));
    }
    if |gold.rows| != |gen.rows| {
      return Comparison(false, RowCountDiffers(|gold.rows|, |gen.rows|));
    }
    var p := ProblemFor(gold, gen, nd);
    for i := 0 to |p.cands| {
      if p.cands[i] == [] {
        EmptyCandidateEmptiesSearch(p.cands, i);
        return Comparison(false, NoColumnReproduces(i));
      }
    }
    var search := new SupersetSearch(p);
    var found := search.Search();
    if found {
      return Comparison(true, MatchesWithExtra(gen.columns - gold.columns));
    }
    if search.attempts >= MAX_ATTEMPTS {
      return Comparison(false, AttemptCapHit);
    }
    return Comparison(false, NotReproduced);
  }

  /** Exact equality, cell by cell: the same number of columns, and the rows can be paired up so that every
    * cell is the same as its counterpart. */
  lemma ExactIffCellsMatch(gold: QueryResult, gen: QueryResult, nd: nat)
    requires gold.WellFormed() && gen.WellFormed()
    ensures ExactlyEqual(gold, gen, nd)
      <==> gold.columns == gen.columns && exists m :: Matches(gold, gen, nd, Identity(gold.columns), m)
  {
    hide Matches;
    CanonRowsRect(gen, nd);
    if gold.columns == gen.columns {
      ProjectIdentity(CanonRows(gen, nd), gen.columns);
      if ExactlyEqual(gold, gen, nd) {
        var m := WitnessMatches(gold, gen, nd, Identity(gold.columns));
      }
      if m :| Matches(gold, gen, nd, Identity(gold.columns), m) {
        MatchIsWitness(gold, gen, nd, Identity(gold.columns), m);
      }
    }
  }

  /** A superset, cell by cell: distinct columns and a pairing of all rows that hold gold's cells. */
  lemma SupersetIffCellsMatch(gold: QueryResult, gen: QueryResult, nd: nat)
    requires gold.WellFormed() && gen.WellFormed()
    ensures HasSuperset(gold, gen, nd) <==> exists a, m :: Matches(gold, gen, nd, a, m)
  {
    hide Matches;
    CanonRowsRect(gen, nd);
    if HasSuperset(gold, gen, nd) {
      var a: seq<nat> :| IsWitness(CanonRows(gold, nd), gold.columns, CanonRows(gen, nd), gen.columns, a);
      var m := WitnessMatches(gold, gen, nd, a);
    }
    if a, m :| Matches(gold, gen, nd, a, m) {
      MatchIsWitness(gold, gen, nd, a, m);
    }
  }

  /** One cell against one cell: nothing but the cells' classes decides. */
  lemma OneCellIff(a: Cell, b: Cell, nd: nat)
    ensures var gold, gen := QueryResult(1, [[a]]), QueryResult(1, [[b]]);
      && gold.WellFormed() && gen.WellFormed()
      && (ExactlyEqual(gold, gen, nd) <==> SameCell(a, b, nd)) && (HasSuperset(gold, gen, nd) <==> SameCell(a, b, nd))
  {
    hide SameCell;
    var gold, gen := QueryResult(1, [[a]]), QueryResult(1, [[b]]);
    ExactIffCellsMatch(gold, gen, nd);
    SupersetIffCellsMatch(gold, gen, nd);
    hide ExactlyEqual, HasSuperset, Matches;
    assert Identity(1) == [0];
    OneCellMatches(a, b, nd, [0], [0]);
    forall cols, m ensures Matches(gold, gen, nd, cols, m) ==> SameCell(a, b, nd) {
      OneCellMatches(a, b, nd, cols, m);
    }
  }

  lemma OneCellMatches(a: Cell, b: Cell, nd: nat, cols: seq<nat>, m: seq<nat>)
    ensures Matches(QueryResult(1, [[a]]), QueryResult(1, [[b]]), nd, cols, m) ==> SameCell(a, b, nd)
    ensures SameCell(a, b, nd) ==> Matches(QueryResult(1, [[a]]), QueryResult(1, [[b]]), nd, [0], [0])
  {
    hide SameCell;
    var gold, gen := QueryResult(1, [[a]]), QueryResult(1, [[b]]);
    if Matches(gold, gen, nd, cols, m) {
      assert m[0] == 0 && HoldsRow(gold.rows[0], gen.rows[m[0]], cols, nd);
      assert cols[0] == 0 && SameCell(gold.rows[0][0], gen.rows[0][cols[0]], nd);
    }
    if SameCell(a, b, nd) {
      assert HoldsRow([a], [b], [0], nd);
    }
  }

  lemma DifferenceSizes<T>(a: multiset<T>, b: multiset<T>)
    ensures |a - b| - |b - a| == |a| - |b| && (a != b ==> |a - b| + |b - a| > 0)
  {
    assert a == (a - b) + a * b && b == (b - a) + a * b;
  }

  method CompareResultSets(gold: QueryResult, gen: QueryResult, mode: MatchMode, nd: nat) returns (r: Comparison)
    requires gold.WellFormed() && gen.WellFormed()
    ensures mode == Exact ==>
      (r.equal <==> gold.columns == gen.columns && exists m :: Matches(gold, gen, nd, Identity(gold.columns), m))
    ensures mode == ColumnsSuperset && r.equal ==> exists a, m :: Matches(gold, gen, nd, a, m)
    ensures mode == ColumnsSuperset && !r.equal && r.reason != AttemptCapHit ==> !exists a, m :: Matches(gold, gen, nd, a, m)
    ensures r.reason == AttemptCapHit ==> mode == ColumnsSuperset && !r.equal && |Leaves(ProblemFor(gold, gen, nd).cands, [])| >= 20000
    ensures ReasonHolds(gold, gen, nd, mode, r)
  {
    hide Matches, Leaves, CanonRow, Identity, HasSuperset, ProblemFor;
    ExactIffCellsMatch(gold, gen, nd);
    SupersetIffCellsMatch(gold, gen, nd);
    if mode == ColumnsSuperset {
      r := CompareSuperset(gold, gen, nd);
      return;
    }
    if gold.columns != gen.columns {
      return Comparison(false, ColumnCountDiffers(gold.columns, gen.columns));
    }
    var goldMs, genMs := multiset(CanonRows(gold, nd)), multiset(CanonRows(gen, nd));
    if goldMs == genMs {
      return Comparison(true, RowsMatch(|gold.rows|));
    }
    DifferenceSizes(goldMs, genMs);
    return Comparison(false, RowSetsDiffer(|goldMs - genMs|, |genMs - goldMs|));
  }

  // ---------------------------------------------------------------- laws

  function Identity(n: nat): (a: seq<nat>)
    ensures |a| == n && Distinct(a) && InRange(a, n)
  {
    seq(n, k => k)
  }

  /** When every column is its own candidate, the identity is the first leaf tried. */
  lemma {:induction false} IdentityComesFirst(cands: seq<seq<nat>>, k: nat)
    requires k <= |cands|
    requires forall i | 0 <= i < |cands| :: i in cands[i]
    requires forall i | 0 <= i < |cands| :: Ascending(cands[i])
    ensures Leaves(cands, Identity(k)) != [] && Leaves(cands, Identity(k))[0] == Identity(|cands|)
    decreases |cands| - k
  {
    if k < |cands| {
      var a := Identity(k);
      var c :| 0 <= c < |cands[k]| && cands[k][c] == k;
      assert forall x | 0 <= x < c :: a[cands[k][x]] == cands[k][x];
      FirstChild(cands, a, c);
      assert a + [k] == Identity(k + 1);
      IdentityComesFirst(cands, k + 1);
      PrefixAt(Leaves(cands, a + [k]), Leaves(cands, a), 0);
    }
  }

  lemma PrefixAt<T>(a: seq<T>, b: seq<T>, i: nat)
    requires a <= b && i < |a|
    ensures b[i] == a[i]
  {}

  /** Used columns are skipped, so the first unused candidate's leaves come first. */
  lemma FirstChild(cands: seq<seq<nat>>, a: seq<nat>, c: nat)
    requires |a| < |cands| && c < |cands[|a|]| && cands[|a|][c] !in a
    requires forall x | 0 <= x < c :: cands[|a|][x] in a
    ensures Leaves(cands, a + [cands[|a|][c]]) <= Leaves(cands, a)
  {
    SkipsUsed(cands, a, c);
    LeavesBeforeIsPrefix(cands, a, c + 1, |cands[|a|]|);
  }

  lemma {:induction false} SkipsUsed(cands: seq<seq<nat>>, a: seq<nat>, c: nat)
    requires |a| < |cands| && c <= |cands[|a|]|
    requires forall x | 0 <= x < c :: cands[|a|][x] in a
    ensures LeavesBefore(cands, a, c) == []
  {
    if c > 0 {
      SkipsUsed(cands, a, c - 1);
    }
  }

  lemma IdentityWitnessComesFirst(gold: seq<Row>, gen: seq<Row>, width: nat)
    requires Rect(gold, width) && Rect(gen, width)
    requires IsWitness(gold, width, gen, width, Identity(width))
    ensures var leaves := Leaves(Candidates(gold, width, gen, width), []);
      leaves != [] && leaves[0] == Identity(width)
  {
    hide Leaves;
    var cands, id := Candidates(gold, width, gen, width), Identity(width);
    WitnessIsAdmissible(gold, width, gen, width, id);
    forall i | 0 <= i < width ensures i in cands[i] && Ascending(cands[i]) {
      assert id[i] == i;
      BelowAscends(width, SameMarginal(gold, gen, width, i));
    }
    assert Identity(0) == [];
    IdentityComesFirst(cands, 0);
  }

  /** Exact equality is a superset match, and the search accepts it on its first attempt: the
    * cap can never turn an exact answer away. */
  lemma ExactIsSuperset(gold: QueryResult, gen: QueryResult, nd: nat)
    requires gold.WellFormed() && gen.WellFormed() && ExactlyEqual(gold, gen, nd)
    ensures HasSuperset(gold, gen, nd)
    ensures var p := ProblemFor(gold, gen, nd); p.FirstHit(Leaves(p.cands, [])) == 0
  {
    hide Leaves;
    CanonRowsRect(gold, nd);
    var p := ProblemFor(gold, gen, nd);
    ProjectIdentity(p.gen, gen.columns);
    IdentityWitnessComesFirst(p.gold, p.gen, gen.columns);
    assert p.Reproduces(Leaves(p.cands, [])[0]);
  }

  lemma ProjectIdentity(rows: seq<Row>, width: nat)
    requires Rect(rows, width)
    ensures Project(rows, width, Identity(width)) == rows
  {
    forall i | 0 <= i < |rows| ensures Project(rows, width, Identity(width))[i] == rows[i] {
      assert rows[i] in rows;
    }
  }

  function Compose(f: seq<nat>, g: seq<nat>): seq<nat>
    requires InRange(f, |g|)
  {
    seq(|f|, k requires 0 <= k < |f| => g[f[k]])
  }

  lemma ComposeWitnesses(a: seq<Row>, wa: nat, b: seq<Row>, wb: nat, c: seq<Row>, wc: nat, f: seq<nat>, g: seq<nat>)
    requires Rect(b, wb) && Rect(c, wc)
    requires IsWitness(a, wa, b, wb, f) && IsWitness(b, wb, c, wc, g)
    ensures IsWitness(a, wa, c, wc, Compose(f, g))
  {
    var mid := Project(c, wc, g);
    assert Rect(mid, wb);
    MapKeepsPermutation(Picker(f, wb), mid, b);
    var byCompose := Project(c, wc, Compose(f, g));
    forall i | 0 <= i < |c| ensures Picker(f, wb)(mid[i]) == byCompose[i] {
      assert c[i] in c && mid[i] in mid && mid[i] == Picker(g, wc)(c[i]);
    }
    assert Project(mid, wb, f) == byCompose;
  }

  /** Superset witnesses compose, so superset matching is transitive. */
  lemma SupersetIsTransitive(a: QueryResult, b: QueryResult, c: QueryResult, nd: nat)
    requires a.WellFormed() && b.WellFormed() && c.WellFormed()
    requires HasSuperset(a, b, nd) && HasSuperset(b, c, nd)
    ensures HasSuperset(a, c, nd)
  {
    CanonRowsRect(b, nd);
    CanonRowsRect(c, nd);
    var ra, rb, rc := CanonRows(a, nd), CanonRows(b, nd), CanonRows(c, nd);
    var f: seq<nat> :| IsWitness(ra, a.columns, rb, b.columns, f);
    var g: seq<nat> :| IsWitness(rb, b.columns, rc, c.columns, g);
    ComposeWitnesses(ra, a.columns, rb, b.columns, rc, c.columns, f, g);
  }

  /** Reordering either side's rows changes no verdict of `Exact` mode. */
  lemma RowOrderIrrelevant(gold: QueryResult, gen: QueryResult, other: QueryResult, nd: nat)
    requires other.columns == gen.columns && multiset(other.rows) == multiset(gen.rows)
    ensures ExactlyEqual(gold, gen, nd) <==> ExactlyEqual(gold, other, nd)
  {
    MapKeepsPermutation(row => CanonRow(row, nd), gen.rows, other.rows);
    assert CanonRows(gen, nd) == Map(row => CanonRow(row, nd), gen.rows);
    assert CanonRows(other, nd) == Map(row => CanonRow(row, nd), other.rows);
  }
}
