/** Input shape dispatch and the missing-value filter
    (`__preprocessing` and `__missing_values_analysis`). */
module Cleaning {
  import opened Basics

  /** One observation as numpy holds it; `None` is NaN. */
  type Cell = Option<real>

  /** What `np.asarray(x)` produces, by number of dimensions. */
  datatype NdArray =
    | Vector(cells: seq<Cell>)                  // ndim == 1
    | Table(rows: seq<seq<Cell>>, columns: nat) // ndim == 2, shape (|rows|, columns)
    | OtherRank(rank: nat)                      // ndim == 0 or ndim >= 3

  /** numpy arrays are rectangular. */
  predicate WellFormed(x: NdArray)
  {
    match x
    case Vector(_) => true
    case Table(rows, c) => forall i :: 0 <= i < |rows| ==> |rows[i]| == c
    case OtherRank(r) => r != 1 && r != 2
  }

  datatype Error =
    | ShapeError          // ndim other than 1 or 2
    | MultiColumn         // a table with more than one column (or none)
    | InsufficientData    // fewer than two observations after filtering
    | DegenerateVariance  // all observations equal: the standard deviation is zero

  /** The preprocessed data: flat, or still two-dimensional. */
  datatype Data = Flat(cells: seq<Cell>) | Grid(rows: seq<seq<Cell>>)

  /** The single column of a one-column table, top to bottom (`x.flatten()`):
      nothing is lost, since the column rebuilds the table. */
  function Flatten(rows: seq<seq<Cell>>): (cells: seq<Cell>)
    requires forall i :: 0 <= i < |rows| ==> |rows[i]| == 1
    ensures |cells| == |rows|
    ensures Column(cells) == rows
  {
    var cells := seq(|rows|, i requires 0 <= i < |rows| => rows[i][0]);
    assert forall i :: 0 <= i < |rows| ==> Column(cells)[i] == [rows[i][0]] == rows[i];
    cells
  }

  /** The one-column table holding a flat series. */
  function Column(cells: seq<Cell>): (rows: seq<seq<Cell>>)
    ensures |rows| == |cells|
    ensures forall i :: 0 <= i < |rows| ==> |rows[i]| == 1
  {
    seq(|cells|, i requires 0 <= i < |cells| => [cells[i]])
  }

  /** Flattening a one-column table loses nothing: it is undone by Column. */
  lemma FlattenRoundTrip(rows: seq<seq<Cell>>, cells: seq<Cell>)
    requires forall i :: 0 <= i < |rows| ==> |rows[i]| == 1
    ensures Column(Flatten(rows)) == rows
    ensures Flatten(Column(cells)) == cells
  {
    var back := Column(Flatten(rows));
    assert |back| == |rows|;
    forall i | 0 <= i < |rows|
      ensures back[i] == rows[i]
    {
      assert |rows[i]| == 1;
    }
  }

  /** `__preprocessing`: a vector passes through, a one-column table is
      flattened, any other table is kept as it is; the column count comes
      with it. Any other number of dimensions is rejected (the code prints a
      warning and then fails on the unassigned column count). */
  function Preprocess(x: NdArray): (r: Result<(Data, nat), Error>)
    requires WellFormed(x)
    ensures x.Vector? ==> r == Ok((Flat(x.cells), 1))
    ensures x.Table? && x.columns == 1 ==>
      r.Ok? && r.value.1 == 1 && r.value.0.Flat? && Column(r.value.0.cells) == x.rows
    ensures x.Table? && x.columns != 1 ==> r == Ok((Grid(x.rows), x.columns))
    ensures x.OtherRank? <==> r == Err(ShapeError)
  {
    match x
    case Vector(cells) => Ok((Flat(cells), 1))
    case Table(rows, c) =>
      if c == 1 then
        FlattenRoundTrip(rows, []);
        Ok((Flat(Flatten(rows)), 1))
      else Ok((Grid(rows), c))
    case OtherRank(_) => Err(ShapeError)
  }

  /** Indices of the entries that `keep` accepts, in increasing order:
      exactly the accepted ones, each once. */
  function Kept<T>(s: seq<T>, keep: T -> bool): (idx: seq<nat>)
    ensures |idx| <= |s|
    ensures forall i :: 0 <= i < |idx| ==> idx[i] < |s| && keep(s[idx[i]])
    ensures forall i, j :: 0 <= i < j < |idx| ==> idx[i] < idx[j]
    ensures forall k :: 0 <= k < |s| && keep(s[k]) ==> k in idx
  {
    if |s| == 0 then []
    else
      var prefix := Kept(s[..|s| - 1], keep);
      if keep(s[|s| - 1]) then prefix + [|s| - 1] else prefix
  }

  /** Filtering a prefix of s keeps a prefix of what filtering s keeps. */
  lemma {:induction false} KeptPrefix<T>(s: seq<T>, keep: T -> bool, m: nat)
    requires m <= |s|
    ensures |Kept(s[..m], keep)| <= |Kept(s, keep)|
    ensures Kept(s[..m], keep) == Kept(s, keep)[..|Kept(s[..m], keep)|]
  {
    if m < |s| {
      var s' := s[..|s| - 1];
      assert s'[..m] == s[..m];
      KeptPrefix(s', keep, m);
      var l := |Kept(s[..m], keep)|;
      assert (Kept(s', keep) + [|s| - 1])[..l] == Kept(s', keep)[..l];
    } else {
      assert s[..m] == s;
    }
  }

  predicate IsPresent(c: Cell)
  {
    c.Some?
  }

  predicate RowComplete(row: seq<Cell>)
  {
    forall j :: 0 <= j < |row| ==> row[j].Some?
  }

  function RowValues(row: seq<Cell>): (vs: seq<real>)
    requires RowComplete(row)
    ensures |vs| == |row|
    ensures forall j :: 0 <= j < |row| ==> row[j] == Some(vs[j])
  {
    seq(|row|, j requires 0 <= j < |row| => row[j].value)
  }

  /** `x[~np.isnan(x)]`: the present values, in their original order. The
      i-th value kept is the value of the i-th present cell. */
  function Clean(cells: seq<Cell>): (xs: seq<real>)
    ensures |xs| == |Kept(cells, IsPresent)|
    ensures forall i :: 0 <= i < |xs| ==> cells[Kept(cells, IsPresent)[i]] == Some(xs[i])
  {
    if |cells| == 0 then []
    else
      var prefix := cells[..|cells| - 1];
      match cells[|cells| - 1]
      case None => Clean(prefix)
      case Some(v) => Clean(prefix) + [v]
  }

  /** `x[~np.isnan(x).any(axis=1)]`: the rows with no missing entry, in
      their original order. */
  function CleanRows(rows: seq<seq<Cell>>): (kept: seq<seq<real>>)
    ensures |kept| == |Kept(rows, RowComplete)|
    ensures forall i :: 0 <= i < |kept| ==>
      |kept[i]| == |rows[Kept(rows, RowComplete)[i]]| &&
      forall j :: 0 <= j < |kept[i]| ==> rows[Kept(rows, RowComplete)[i]][j] == Some(kept[i][j])
  {
    if |rows| == 0 then []
    else
      var prefix := rows[..|rows| - 1];
      var last := rows[|rows| - 1];
      if RowComplete(last) then CleanRows(prefix) + [RowValues(last)] else CleanRows(prefix)
  }

  datatype Filtered = Series(xs: seq<real>) | Rows(rows: seq<seq<real>>)

  /** `__missing_values_analysis` with method 'skip': filters the data and
      reports how many observations (values or rows) remain. */
  function SkipMissing(d: Data): (r: (Filtered, nat))
    ensures d.Flat? ==> r.0 == Series(Clean(d.cells)) && r.1 == |Kept(d.cells, IsPresent)|
    ensures d.Grid? ==> r.0 == Rows(CleanRows(d.rows)) && r.1 == |Kept(d.rows, RowComplete)|
  {
    match d
    case Flat(cells) => (Series(Clean(cells)), |Clean(cells)|)
    case Grid(rows) => (Rows(CleanRows(rows)), |CleanRows(rows)|)
  }

  /** Filtering distributes over concatenation. */
  lemma {:induction false} CleanConcat(a: seq<Cell>, b: seq<Cell>)
    ensures Clean(a + b) == Clean(a) + Clean(b)
  {
    if |b| > 0 {
      assert (a + b)[..|a + b| - 1] == a + b[..|b| - 1];
      CleanConcat(a, b[..|b| - 1]);
    } else {
      assert a + b == a;
    }
  }

  /** Inserting a missing value anywhere leaves the filtered series unchanged. */
  lemma InsertMissing(a: seq<Cell>, b: seq<Cell>)
    ensures Clean(a + [None] + b) == Clean(a + b)
  {
    var gap: seq<Cell> := [None];
    assert a + [None] + b == (a + gap) + b;
    CleanConcat(a + gap, b);
    CleanConcat(a, gap);
    assert gap[..0] == [];
    CleanConcat(a, b);
  }

  /** The original 1-based position of the loc-th kept value: the label that
      a change point at filtered position loc stands for. Exactly loc present
      values lie at or before it, and the value there is the loc-th one. */
  function ChangePointLabel(cells: seq<Cell>, loc: nat): (pos: nat)
    requires 1 <= loc <= |Clean(cells)|
    ensures loc <= pos <= |cells|
    ensures cells[pos - 1] == Some(Clean(cells)[loc - 1])
    ensures |Clean(cells[..pos])| == loc
  {
    KeptPosition(cells, loc - 1);
    Kept(cells, IsPresent)[loc - 1] + 1
  }

  lemma KeptPosition(cells: seq<Cell>, i: nat)
    requires i < |Kept(cells, IsPresent)|
    ensures i <= Kept(cells, IsPresent)[i] < |cells|
    ensures |Kept(cells[..Kept(cells, IsPresent)[i] + 1], IsPresent)| == i + 1
  {
    var k := Kept(cells, IsPresent);
    var pos := k[i] + 1;
    KeptIndexBound(k, i);
    KeptPrefix(cells, IsPresent, pos);
    var p := Kept(cells[..pos], IsPresent);
    assert forall t :: 0 <= t < |p| ==> p[t] < pos;
    assert (cells[..pos])[pos - 1] == cells[pos - 1];
    assert pos - 1 in p;
    PrefixLength(k, p, i);
  }

  /** In a strictly increasing sequence of naturals, entry i is at least i. */
  lemma {:induction false} KeptIndexBound(k: seq<nat>, i: nat)
    requires i < |k|
    requires forall a, b :: 0 <= a < b < |k| ==> k[a] < k[b]
    ensures k[i] >= i
  {
    if i > 0 {
      KeptIndexBound(k, i - 1);
    }
  }

  /** A prefix p of a strictly increasing k that contains k[i] and nothing
      above it has exactly i + 1 entries. */
  lemma PrefixLength(k: seq<nat>, p: seq<nat>, i: nat)
    requires i < |k|
    requires forall a, b :: 0 <= a < b < |k| ==> k[a] < k[b]
    requires |p| <= |k| && p == k[..|p|]
    requires k[i] in p
    requires forall t :: 0 <= t < |p| ==> p[t] <= k[i]
    ensures |p| == i + 1
  {
    var t :| 0 <= t < |p| && p[t] == k[i];
    assert p[t] == k[t];
    IncreasingInjective(k, t, i);
    assert forall j :: 0 <= j < |p| ==> k[j] <= k[i];
    if i + 1 < |k| {
      assert k[i] < k[i + 1];
    }
  }

  /** A strictly increasing sequence holds each value at one index only. */
  lemma IncreasingInjective(k: seq<nat>, a: nat, b: nat)
    requires a < |k| && b < |k|
    requires forall x, y :: 0 <= x < y < |k| ==> k[x] < k[y]
    ensures k[a] == k[b] ==> a == b
  {
  }
}
