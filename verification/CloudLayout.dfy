/** `toRosMsg`: a lidar cloud, stored column by column (all rings of one firing after each
    other), becomes a ROS cloud, stored row by row. */
module CloudLayout {

  datatype LidarCloud<P> = LidarCloud(width: nat, height: nat, points: seq<P>)

  datatype RosCloud<P> = RosCloud(width: nat, height: nat, data: seq<P>)

  predicate Full<P>(m: RosCloud<P>)
  {
    |m.data| == m.width * m.height
  }

  predicate Complete<P>(c: LidarCloud<P>)
  {
    |c.points| == c.width * c.height
  }

  // How a ROS reader addresses a point.
  function At<P>(m: RosCloud<P>, row: nat, column: nat): (p: P)
    requires Full(m) && row < m.height && column < m.width
  {
    CellIndex(m.width, m.height, row, column);
    m.data[row * m.width + column]
  }

  // How the decoder addresses a point: ring within firing.
  function Fired<P>(c: LidarCloud<P>, ring: nat, firing: nat): (p: P)
    requires c.width * c.height <= |c.points| && ring < c.height && firing < c.width
  {
    CellIndex(c.height, c.width, firing, ring);
    c.points[ring + firing * c.height]
  }

  lemma CellIndex(width: nat, height: nat, row: nat, column: nat)
    requires row < height && column < width
    ensures row * width + column < width * height
    ensures (row * width + column) / width == row && (row * width + column) % width == column
  {
    Ordered(row + 1, height, width);
    Quotient(width, row * width + column, row, column);
  }

  lemma Quotient(d: nat, n: nat, q: nat, r: nat)
    requires n == q * d + r && r < d
    ensures n / d == q && n % d == r
  {
    assert n == n / d * d + n % d;
    SmallMultiple(q - n / d, d);
  }

  lemma SmallMultiple(x: int, d: int)
    requires d > 0
    ensures -d < x * d < d ==> x == 0
    ensures x * d >= 0 ==> x >= 0
  {
  }

  lemma Ordered(x: nat, y: nat, d: nat)
    ensures x <= y ==> x * d <= y * d
  {
  }

  // The input position that row mode writes at output position k.
  function RowIndex(width: nat, height: nat, k: nat): (n: nat)
    requires k < width * height
    ensures n < width * height
  {
    Cell(width, height, k);
    CellIndex(height, width, k % width, k / width);
    k / width + k % width * height
  }

  lemma Cell(width: nat, height: nat, k: nat)
    requires k < width * height
    ensures width > 0 && k / width < height && k == k / width * width + k % width
  {
    assert k == k / width * width + k % width;
    Ordered(height, k / width, width);
  }

  /** Going from rows to columns undoes going from columns to rows, index by index. */
  lemma RowIndexUndone(width: nat, height: nat, k: nat)
    requires k < width * height
    ensures RowIndex(height, width, RowIndex(width, height, k)) == k
  {
    Cell(width, height, k);
    CellIndex(height, width, k % width, k / width);
  }

  /** The reindexing is a bijection of the positions of the cloud. */
  lemma RowIndexBijective(width: nat, height: nat, j: nat, k: nat)
    requires j < width * height && k < width * height
    ensures RowIndex(width, height, j) == RowIndex(width, height, k) ==> j == k
    ensures exists i: nat :: i < width * height && RowIndex(width, height, i) == k
  {
    RowIndexUndone(width, height, j);
    RowIndexUndone(width, height, k);
    RowIndexUndone(height, width, k);
    assert RowIndex(width, height, RowIndex(height, width, k)) == k;
  }

  // -------------------------------------------------------------------- Result

  function InRows<P>(c: LidarCloud<P>): (m: RosCloud<P>)
    requires c.width * c.height <= |c.points|
    ensures Full(m)
  {
    RosCloud(c.width, c.height,
             seq(c.width * c.height, k requires 0 <= k < c.width * c.height =>
                 c.points[RowIndex(c.width, c.height, k)]))
  }

  // Width and height change places.
  function InColumns<P>(c: LidarCloud<P>): (m: RosCloud<P>)
  {
    RosCloud(c.height, c.width, c.points)
  }

  /** The point of a ring and firing is found at row `ring`, column `firing` of a row message,
      and at row `firing`, column `ring` of a column message: they are transposes. */
  lemma Transposed<P>(c: LidarCloud<P>, ring: nat, firing: nat)
    requires Complete(c) && ring < c.height && firing < c.width
    ensures Full(InColumns(c))
    ensures At(InRows(c), ring, firing) == Fired(c, ring, firing) == At(InColumns(c), firing, ring)
  {
    CellIndex(c.width, c.height, ring, firing);
  }

  /** The formula: output place i * width + j holds input point i + j * height. */
  lemma RowFormula<P>(c: LidarCloud<P>, i: nat, j: nat)
    requires c.width * c.height <= |c.points| && i < c.height && j < c.width
    ensures i * c.width + j < |InRows(c).data| && i + j * c.height < |c.points|
    ensures InRows(c).data[i * c.width + j] == c.points[i + j * c.height]
    ensures InRows(c).width == c.width && InRows(c).height == c.height && |InRows(c).data| == c.width * c.height
  {
    CellIndex(c.width, c.height, i, j);
    CellIndex(c.height, c.width, j, i);
  }

  /** Laying the rows out again with the dimensions exchanged gives the input back. */
  lemma RowsUndone<P>(c: LidarCloud<P>)
    requires Complete(c)
    ensures InRows(LidarCloud(c.height, c.width, InRows(c).data)).data == c.points
  {
    var back := InRows(LidarCloud(c.height, c.width, InRows(c).data)).data;
    forall k | 0 <= k < |c.points|
      ensures back[k] == c.points[k]
    {
      RowIndexUndone(c.height, c.width, k);
    }
  }

  function Picked<P>(s: seq<P>, at: seq<nat>): (r: seq<P>)
    requires forall k :: 0 <= k < |at| ==> at[k] < |s|
  {
    seq(|at|, k requires 0 <= k < |at| => s[at[k]])
  }

  // Picking every element once permutes the sequence.
  lemma {:induction false} PickedPermutes<P>(s: seq<P>, at: seq<nat>)
    requires |at| == |s| && forall k :: 0 <= k < |at| ==> at[k] < |s|
    requires forall j, k :: 0 <= j < k < |at| ==> at[j] != at[k]
    ensures multiset(Picked(s, at)) == multiset(s)
    decreases |s|
  {
    if s != [] {
      var m := at[|s| - 1];
      var others := s[..m] + s[m + 1..];
      var rest := seq(|s| - 1, k requires 0 <= k < |s| - 1 => if at[k] > m then at[k] - 1 else at[k]);
      PickedPermutes(others, rest);
      assert Picked(s, at) == Picked(others, rest) + [s[m]];
      assert s == s[..m] + [s[m]] + s[m + 1..];
    }
  }

  /** Row mode neither loses nor repeats a point. */
  lemma RowsPermute<P>(c: LidarCloud<P>)
    requires Complete(c)
    ensures multiset(InRows(c).data) == multiset(c.points)
  {
    var at := seq(|c.points|, k requires 0 <= k < |c.points| => RowIndex(c.width, c.height, k));
    forall j, k | 0 <= j < k < |at|
      ensures at[j] != at[k]
    {
      RowIndexBijective(c.width, c.height, j, k);
    }
    PickedPermutes(c.points, at);
    assert InRows(c).data == Picked(c.points, at);
  }

  // Where a row starts, or a column of the input.
  function Start(width: nat, row: nat): (n: nat)
  {
    row * width
  }

  lemma NextStart(width: nat, row: nat)
    ensures Start(width, 0) == 0 && Start(width, row + 1) == Start(width, row) + width
  {
  }

  ghost predicate AgreesTo<P>(data: array<P>, s: seq<P>, n: nat)
    reads data
  {
    data.Length == |s| && n <= |s| && forall k :: 0 <= k < n ==> data[k] == s[k]
  }

  lemma CellWritten<P>(c: LidarCloud<P>, i: nat, j: nat)
    requires c.width * c.height <= |c.points| && i < c.height && j < c.width
    ensures Start(c.width, i) + j < |InRows(c).data|
    ensures Start(c.height, j) + i < |c.points|
    ensures InRows(c).data[Start(c.width, i) + j] == c.points[Start(c.height, j) + i]
  {
    CellIndex(c.width, c.height, i, j);
    CellIndex(c.height, c.width, j, i);
  }

  lemma RowsSize<P>(c: LidarCloud<P>)
    requires c.width * c.height <= |c.points|
    ensures |InRows(c).data| == c.width * c.height == Start(c.width, c.height)
    ensures InRows(c).width == c.width && InRows(c).height == c.height
  {
  }

  method FillRows<P>(c: LidarCloud<P>, data: array<P>)
    requires c.width * c.height <= |c.points|
    requires data.Length == c.width * c.height
    modifies data
    ensures data[..] == InRows(c).data
  {
    hide InRows, Start;
    RowsSize(c);
    NextStart(c.width, 0);
    ghost var rows := InRows(c).data;
    var cursor := 0;
    for i := 0 to c.height
      invariant cursor == Start(c.width, i)
      invariant AgreesTo(data, rows, cursor)
    {
      NextStart(c.width, i);
      for j := 0 to c.width
        invariant cursor == Start(c.width, i) + j
        invariant AgreesTo(data, rows, cursor)
      {
        CellWritten(c, i, j);
        data[cursor] := c.points[i + Start(c.height, j)];
        cursor := cursor + 1;
      }
    }
  }

  method FillColumns<P>(c: LidarCloud<P>, data: array<P>)
    requires |c.points| <= data.Length
    modifies data
    ensures c.points <= data[..]
  {
    for i := 0 to |c.points|
      invariant data[..i] == c.points[..i]
    {
      data[i] := c.points[i];
    }
  }

  /** The conversion. Row mode reads `points` by index and needs width * height of them; column
      mode writes all of them into a buffer of width * height points. */
  method ToRosMsg<P(0)>(c: LidarCloud<P>, sendByRows: bool) returns (m: RosCloud<P>)
    requires if sendByRows then c.width * c.height <= |c.points| else |c.points| <= c.width * c.height
    ensures Full(m)
    ensures sendByRows ==> m == InRows(c)
    ensures !sendByRows ==> m.width == c.height && m.height == c.width && c.points <= m.data
    ensures !sendByRows && Complete(c) ==> m == InColumns(c)
  {
    var data := new P[c.width * c.height];
    if sendByRows {
      FillRows(c, data);
      RowsSize(c);
      hide InRows;
      m := RosCloud(c.width, c.height, data[..]);
    } else {
      FillColumns(c, data);
      m := RosCloud(c.height, c.width, data[..]);
    }
  }
}
