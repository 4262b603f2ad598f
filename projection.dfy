/** `project_columns` (tree.py lines 45-63, limiting_depth.py lines 58-76):
    keep the requested columns of a table by deleting all others, from the
    highest position down, from a copy of the header and from every row. The
    row list is copied but the rows themselves are not, so the deletions
    also shorten the rows of the table that was passed in. */
module Projection {
  import opened Wrappers
  import opened Table

  /** A data row as a Python list: deleting a cell changes it for everyone
      holding it. */
  class RowBuf {
    var cells: seq<string>

    constructor (cells: seq<string>)
      ensures this.cells == cells
    {
      this.cells := cells;
    }
  }

  /** The table `project_columns` returns. */
  datatype Projected = Projected(header: seq<string>, rows: seq<RowBuf>,
                                 idxToName: map<nat, string>, nameToIdx: map<string, nat>)

  /** `[data['name_to_idx'][name] for name in columns_to_project]`: the
      column of each requested name, or a KeyError for the first requested
      name that is not a column. */
  function ProjectedIndices(nameToIdx: map<string, nat>, cols: seq<string>): (r: Result<seq<nat>>)
    ensures r.Ok? <==> forall i | 0 <= i < |cols| :: cols[i] in nameToIdx
    ensures r.Ok? ==> |r.value| == |cols| && forall i | 0 <= i < |cols| :: r.value[i] == nameToIdx[cols[i]]
    ensures r.Err? ==> exists i | 0 <= i < |cols| ::
      && cols[i] !in nameToIdx
      && r.error == KeyError(cols[i])
      && forall j | 0 <= j < i :: cols[j] in nameToIdx
  {
    if cols == [] then Ok([])
    else if cols[0] !in nameToIdx then Err(KeyError(cols[0]))
    else
      match ProjectedIndices(nameToIdx, cols[1..])
      case Ok(rest) => Ok([nameToIdx[cols[0]]] + rest)
      case Err(e) => Err(e)
  }

  /** `columns_to_remove`: the positions of the header that were not requested. */
  function Removed(width: nat, ix: seq<nat>): set<nat>
  {
    set c: nat | c < width && c !in ix
  }

  /** The positions of `gone` from `d` on: those already deleted when the
      descending deletion loop has reached `d`. */
  function AtOrAbove(gone: set<nat>, d: nat): set<nat>
  {
    set c | c in gone && c >= d
  }

  /** `s` with the positions in `gone` deleted. */
  function Without(s: seq<string>, gone: set<nat>): seq<string>
  {
    if s == [] then []
    else Without(s[..|s| - 1], gone) + (if |s| - 1 in gone then [] else [s[|s| - 1]])
  }

  /** The positions below `n` outside `gone`, in increasing order. */
  function Kept(n: nat, gone: set<nat>): (k: seq<nat>)
    ensures forall j | 0 <= j < |k| :: k[j] < n
    ensures forall i, j | 0 <= i < j < |k| :: k[i] < k[j]
    ensures forall c: nat :: c in k <==> c < n && c !in gone
  {
    if n == 0 then [] else Kept(n - 1, gone) + (if n - 1 in gone then [] else [n - 1])
  }

  /** What deleting leaves: the cells at the kept positions, in their order. */
  lemma {:induction false} WithoutIsKept(s: seq<string>, gone: set<nat>)
    ensures |Without(s, gone)| == |Kept(|s|, gone)|
    ensures forall j | 0 <= j < |Kept(|s|, gone)| :: Without(s, gone)[j] == s[Kept(|s|, gone)[j]]
  {
    if s != [] {
      var init := s[..|s| - 1];
      WithoutIsKept(init, gone);
      assert |init| == |s| - 1;
      forall j | 0 <= j < |Kept(|s|, gone)| ensures Without(s, gone)[j] == s[Kept(|s|, gone)[j]] {
        if j < |Kept(|init|, gone)| {
          assert Without(s, gone)[j] == Without(init, gone)[j];
          assert Kept(|s|, gone)[j] == Kept(|init|, gone)[j];
        }
      }
    }
  }

  /** Deleting only positions at or past the end changes nothing. */
  lemma {:induction false} WithoutNone(s: seq<string>, gone: set<nat>)
    requires forall c | c in gone :: c >= |s|
    ensures Without(s, gone) == s
  {
    if s != [] {
      WithoutNone(s[..|s| - 1], gone);
    }
  }

  /** Deleting only positions at or past `x` keeps the first `x` cells. */
  lemma {:induction false} WithoutKeepsPrefix(s: seq<string>, gone: set<nat>, x: nat)
    requires x <= |s| && forall c | c in gone :: c >= x
    ensures x <= |Without(s, gone)| && Without(s, gone)[..x] == s[..x]
  {
    if |s| > x {
      WithoutKeepsPrefix(s[..|s| - 1], gone, x);
      assert s[..|s| - 1][..x] == s[..x];
    } else {
      WithoutNone(s, gone);
    }
  }

  /** One `del s[x]` below every position deleted so far extends the deletion
      by `x`: the descending loop computes `Without`. */
  lemma {:induction false} WithoutDelete(s: seq<string>, gone: set<nat>, x: nat)
    requires x < |s| && forall c | c in gone :: c > x
    ensures x < |Without(s, gone)|
    ensures Without(s, gone + {x}) == Without(s, gone)[..x] + Without(s, gone)[x + 1..]
  {
    WithoutKeepsPrefix(s, gone, x + 1);
    var last := |s| - 1;
    var init := s[..last];
    if last == x {
      WithoutNone(s, gone);
      WithoutNone(init, gone + {x});
    } else {
      WithoutDelete(init, gone, x);
      WithoutKeepsPrefix(init, gone, x + 1);
      var w := Without(init, gone);
      var tail := if last in gone then [] else [s[last]];
      assert Without(s, gone) == w + tail;
      assert Without(s, gone + {x}) == Without(init, gone + {x}) + tail;
      DeleteBeforeTail(w, tail, x);
    }
  }

  /** Deleting position `x` of `w + tail`, with `x` inside `w`, leaves the
      tail alone. */
  lemma DeleteBeforeTail(w: seq<string>, tail: seq<string>, x: nat)
    requires x < |w|
    ensures (w + tail)[..x] + (w + tail)[x + 1..] == w[..x] + w[x + 1..] + tail
  {
    assert (w + tail)[..x] == w[..x];
    assert (w + tail)[x + 1..] == w[x + 1..] + tail;
  }

  /** `for r in data_r: del r[delc]`. */
  method DeleteColumn(rows: seq<RowBuf>, d: nat)
    requires forall i, j | 0 <= i < j < |rows| :: rows[i] != rows[j]
    requires forall i | 0 <= i < |rows| :: d < |rows[i].cells|
    modifies rows
    ensures forall i | 0 <= i < |rows| :: rows[i].cells == old(rows[i].cells)[..d] + old(rows[i].cells)[d + 1..]
  {
    for j := 0 to |rows|
      invariant forall i | 0 <= i < j :: rows[i].cells == old(rows[i].cells)[..d] + old(rows[i].cells)[d + 1..]
      invariant forall i | j <= i < |rows| :: rows[i].cells == old(rows[i].cells)
    {
      rows[j].cells := rows[j].cells[..d] + rows[j].cells[d + 1..];
    }
  }

  /** The deletion loop of `project_columns`: every position of `gone`, from
      the highest down, is deleted from the header copy and from every row. */
  method DeleteColumns(header: seq<string>, rows: seq<RowBuf>, gone: set<nat>) returns (dataH: seq<string>)
    requires forall c | c in gone :: c < |header|
    requires forall i, j | 0 <= i < j < |rows| :: rows[i] != rows[j]
    requires forall i | 0 <= i < |rows| :: |header| <= |rows[i].cells|
    modifies rows
    ensures dataH == Without(header, gone)
    ensures forall i | 0 <= i < |rows| :: rows[i].cells == Without(old(rows[i].cells), gone)
  {
    dataH := header;
    WithoutNone(header, AtOrAbove(gone, |header|));
    forall i | 0 <= i < |rows| ensures rows[i].cells == Without(rows[i].cells, AtOrAbove(gone, |header|)) {
      WithoutNone(rows[i].cells, AtOrAbove(gone, |header|));
    }
    var d: nat := |header|;
    while d > 0
      invariant d <= |header|
      invariant dataH == Without(header, AtOrAbove(gone, d))
      invariant forall i | 0 <= i < |rows| :: rows[i].cells == Without(old(rows[i].cells), AtOrAbove(gone, d))
    {
      d := d - 1;
      if d in gone {
        WithoutDelete(header, AtOrAbove(gone, d + 1), d);
        forall i | 0 <= i < |rows|
          ensures d < |rows[i].cells|
          ensures Without(old(rows[i].cells), AtOrAbove(gone, d + 1) + {d}) == rows[i].cells[..d] + rows[i].cells[d + 1..]
        {
          WithoutDelete(old(rows[i].cells), AtOrAbove(gone, d + 1), d);
        }
        dataH := dataH[..d] + dataH[d + 1..];
        DeleteColumn(rows, d);
        assert AtOrAbove(gone, d) == AtOrAbove(gone, d + 1) + {d};
      } else {
        assert AtOrAbove(gone, d) == AtOrAbove(gone, d + 1);
      }
    }
    assert AtOrAbove(gone, 0) == gone;
  }

  /** `project_columns(data, columns_to_project)`. On a KeyError nothing has
      been deleted yet. Otherwise the header loses the unrequested positions,
      the same row objects come back with the same positions deleted, and the
      maps are rebuilt for the new header. */
  method ProjectColumns(header: seq<string>, nameToIdx: map<string, nat>, rows: seq<RowBuf>, cols: seq<string>)
    returns (r: Result<Projected>)
    requires forall i, j | 0 <= i < j < |rows| :: rows[i] != rows[j]
    requires forall i | 0 <= i < |rows| :: |header| <= |rows[i].cells|
    modifies rows
    ensures ProjectedIndices(nameToIdx, cols).Err? ==>
      && r == Err(ProjectedIndices(nameToIdx, cols).error)
      && forall i | 0 <= i < |rows| :: rows[i].cells == old(rows[i].cells)
    ensures ProjectedIndices(nameToIdx, cols).Ok? ==>
      var gone := Removed(|header|, ProjectedIndices(nameToIdx, cols).value);
      && r.Ok?
      && r.value.header == Without(header, gone)
      && r.value.rows == rows
      && (forall i | 0 <= i < |rows| :: rows[i].cells == Without(old(rows[i].cells), gone))
      && NameMapsOf(r.value.header, r.value.idxToName, r.value.nameToIdx)
  {
    var ix := ProjectedIndices(nameToIdx, cols);
    if ix.Err? {
      return Err(ix.error);
    }
    var dataH := DeleteColumns(header, rows, Removed(|header|, ix.value));
    var newIdxToName, newNameToIdx := GetHeaderNameToIdxMaps(dataH);
    return Ok(Projected(dataH, rows, newIdxToName, newNameToIdx));
  }

  /** What survives a successful projection: exactly the columns holding a
      requested name, in the header's order whatever the request's order.
      When a name heads several columns only its last column survives, the
      one `name_to_idx` points to. */
  lemma ProjectionKeepsRequested(header: seq<string>, nameToIdx: map<string, nat>, cols: seq<string>)
    requires forall n :: n in nameToIdx <==> n in header
    requires forall n | n in nameToIdx :: IsLastIndex(header, n, nameToIdx[n])
    requires ProjectedIndices(nameToIdx, cols).Ok?
    ensures var gone := Removed(|header|, ProjectedIndices(nameToIdx, cols).value);
      var k := Kept(|header|, gone);
      && |Without(header, gone)| == |k|
      && (forall j | 0 <= j < |k| :: Without(header, gone)[j] == header[k[j]])
      && (forall i, j | 0 <= i < j < |k| :: k[i] < k[j])
      && (forall c: nat :: c in k <==> c < |header| && header[c] in cols && IsLastIndex(header, header[c], c))
  {
    var ix := ProjectedIndices(nameToIdx, cols).value;
    var gone := Removed(|header|, ix);
    WithoutIsKept(header, gone);
    forall c: nat | c < |header|
      ensures c !in gone <==> header[c] in cols && IsLastIndex(header, header[c], c)
    {
      if c !in gone {
        var i :| 0 <= i < |ix| && ix[i] == c;
        assert IsLastIndex(header, cols[i], c);
      }
      if header[c] in cols && IsLastIndex(header, header[c], c) {
        var i :| 0 <= i < |cols| && cols[i] == header[c];
        assert ix[i] == c;
      }
    }
  }
}
