/** The table helpers of the learner. tree.py (lines 36-140) and
    limiting_depth.py (lines 49-153) carry identical copies of them; this
    module models both. A table is its rows plus the name/index maps that
    `get_header_name_to_idx_maps` builds from the header. */
module Table {
  import opened Wrappers

  /** One data row: one cell per header column. */
  type Row = seq<string>

  /** A Python dict with string keys: `keys` is its insertion order (the order
      in which `for k in d` visits it), `at` its contents. */
  datatype OrderedMap<V> = OrderedMap(keys: seq<string>, at: map<string, V>)

  function Elements(s: seq<string>): (r: set<string>)
    ensures forall x :: x in r <==> x in s
  {
    set x | x in s
  }

  ghost predicate Distinct<T>(s: seq<T>)
  {
    forall i, j | 0 <= i < j < |s| :: s[i] != s[j]
  }

  /** A sequence without repeats has as many elements as its set. */
  lemma {:induction false} DistinctCard(s: seq<string>)
    requires Distinct(s)
    ensures |Elements(s)| == |s|
  {
    if s != [] {
      var t := s[..|s| - 1];
      var y := s[|s| - 1];
      assert Distinct(t);
      DistinctCard(t);
      forall j | 0 <= j < |t| ensures t[j] != y {
        assert t[j] == s[j];
      }
      assert s == t + [y];
      assert Elements(s) == Elements(t) + {y};
    }
  }

  /** Each key is listed once, and the listed keys are exactly the dict's keys. */
  ghost predicate WellOrdered<V>(m: OrderedMap<V>)
  {
    Distinct(m.keys) && forall k :: k in m.keys <==> k in m.at
  }

  /** Every row has a cell at column `col`. */
  ghost predicate HasColumn(rows: seq<Row>, col: nat)
  {
    forall i | 0 <= i < |rows| :: col < |rows[i]|
  }

  lemma PrefixHasColumn(rows: seq<Row>, col: nat, k: nat)
    requires HasColumn(rows, col) && k <= |rows|
    ensures HasColumn(rows[..k], col)
  {
  }

  /** A table whose rows all come from a table with column `col` has it too. */
  lemma SubHasColumn(rows: seq<Row>, sub: seq<Row>, col: nat)
    requires HasColumn(rows, col) && forall x | x in sub :: x in rows
    ensures HasColumn(sub, col)
  {
    forall i | 0 <= i < |sub| ensures col < |sub[i]| {
      assert sub[i] in rows;
    }
  }

  /** The values found at column `col`. */
  function ColumnValues(rows: seq<Row>, col: nat): set<string>
    requires HasColumn(rows, col)
  {
    set r | r in rows :: r[col]
  }

  /** The rows that hold `v` at column `col`, in their original order. */
  function Matching(rows: seq<Row>, col: nat, v: string): (s: seq<Row>)
    requires HasColumn(rows, col)
    ensures |s| <= |rows|
  {
    if rows == [] then []
    else
      PrefixHasColumn(rows, col, |rows| - 1);
      var last := rows[|rows| - 1];
      Matching(rows[..|rows| - 1], col, v) + (if last[col] == v then [last] else [])
  }

  /** Exactly the rows holding `v` are kept. */
  lemma {:induction false} MatchingMembers(rows: seq<Row>, col: nat, v: string)
    requires HasColumn(rows, col)
    ensures forall x :: x in Matching(rows, col, v) <==> x in rows && x[col] == v
  {
    if rows != [] {
      PrefixHasColumn(rows, col, |rows| - 1);
      var init := rows[..|rows| - 1];
      assert rows == init + [rows[|rows| - 1]];
      MatchingMembers(init, col, v);
    }
  }

  lemma ColumnValuesSnoc(rows: seq<Row>, col: nat)
    requires HasColumn(rows, col) && rows != []
    ensures HasColumn(rows[..|rows| - 1], col)
    ensures ColumnValues(rows, col) == ColumnValues(rows[..|rows| - 1], col) + {rows[|rows| - 1][col]}
  {
    PrefixHasColumn(rows, col, |rows| - 1);
    var init := rows[..|rows| - 1];
    assert rows == init + [rows[|rows| - 1]];
  }

  /** One step of `get_class_labels`: count one more occurrence of `v`. */
  function Bump(m: OrderedMap<nat>, v: string): OrderedMap<nat>
  {
    if v in m.at then OrderedMap(m.keys, m.at[v := m.at[v] + 1])
    else OrderedMap(m.keys + [v], m.at[v := 1])
  }

  /** `get_class_labels` as a value: one key per value found at column `col`,
      listed in order of first occurrence. */
  function Tally(rows: seq<Row>, col: nat): (m: OrderedMap<nat>)
    requires HasColumn(rows, col)
    ensures forall k :: k in m.keys <==> k in m.at
    ensures (m.keys == []) == (rows == [])
  {
    if rows == [] then OrderedMap([], map[])
    else
      PrefixHasColumn(rows, col, |rows| - 1);
      Bump(Tally(rows[..|rows| - 1], col), rows[|rows| - 1][col])
  }

  /** No label is listed twice. */
  lemma {:induction false} TallyWellOrdered(rows: seq<Row>, col: nat)
    requires HasColumn(rows, col)
    ensures WellOrdered(Tally(rows, col))
  {
    if rows != [] {
      PrefixHasColumn(rows, col, |rows| - 1);
      TallyWellOrdered(rows[..|rows| - 1], col);
    }
  }

  /** The keys of a tally are the values of the column. */
  lemma {:induction false} TallyKeys(rows: seq<Row>, col: nat)
    requires HasColumn(rows, col)
    ensures Tally(rows, col).at.Keys == ColumnValues(rows, col)
  {
    if rows != [] {
      ColumnValuesSnoc(rows, col);
      TallyKeys(rows[..|rows| - 1], col);
    }
  }

  /** Each label is counted once per row holding it. */
  lemma {:induction false} TallyCounts(rows: seq<Row>, col: nat, v: string)
    requires HasColumn(rows, col)
    ensures v in Tally(rows, col).at <==> Matching(rows, col, v) != []
    ensures v in Tally(rows, col).at ==> Tally(rows, col).at[v] == |Matching(rows, col, v)|
  {
    if rows != [] {
      PrefixHasColumn(rows, col, |rows| - 1);
      TallyCounts(rows[..|rows| - 1], col, v);
    }
  }

  /** One step of `partition_data`: append `row` to the group of `v`. */
  function Append(g: OrderedMap<seq<Row>>, v: string, row: Row): OrderedMap<seq<Row>>
  {
    if v in g.at then OrderedMap(g.keys, g.at[v := g.at[v] + [row]])
    else OrderedMap(g.keys + [v], g.at[v := [row]])
  }

  /** `partition_data` as a value: one group per value found at column `col`,
      keyed in order of first occurrence, holding the rows with that value. */
  function Group(rows: seq<Row>, col: nat): (m: OrderedMap<seq<Row>>)
    requires HasColumn(rows, col)
    ensures m.keys == Tally(rows, col).keys && m.at.Keys == Tally(rows, col).at.Keys
  {
    if rows == [] then OrderedMap([], map[])
    else
      PrefixHasColumn(rows, col, |rows| - 1);
      var init := rows[..|rows| - 1];
      var last := rows[|rows| - 1];
      Append(Group(init, col), last[col], last)
  }

  /** The group of `w` holds the rows with `w` at the column, in order. */
  lemma {:induction false} GroupMatching(rows: seq<Row>, col: nat, w: string)
    requires HasColumn(rows, col) && w in Group(rows, col).at
    ensures Group(rows, col).at[w] == Matching(rows, col, w)
  {
    PrefixHasColumn(rows, col, |rows| - 1);
    var init := rows[..|rows| - 1];
    var last := rows[|rows| - 1];
    if w in Group(init, col).at {
      GroupMatching(init, col, w);
    } else {
      TallyCounts(init, col, w);
    }
  }

  /** Creating an empty group and then appending to it is `Append`. */
  lemma AppendInTwoSteps(g: OrderedMap<seq<Row>>, v: string, row: Row)
    ensures v !in g.at ==>
      var g1 := OrderedMap(g.keys + [v], g.at[v := []]);
      OrderedMap(g1.keys, g1.at[v := g1.at[v] + [row]]) == Append(g, v, row)
  {
    if v !in g.at {
      assert [] + [row] == [row];
      var g1 := OrderedMap(g.keys + [v], g.at[v := []]);
      assert g1.at[v := g1.at[v] + [row]] == g.at[v := [row]];
    }
  }

  lemma GroupSnoc(rows: seq<Row>, col: nat, i: nat)
    requires HasColumn(rows, col) && i < |rows|
    ensures HasColumn(rows[..i], col) && HasColumn(rows[..i + 1], col)
    ensures Group(rows[..i + 1], col) == Append(Group(rows[..i], col), rows[i][col], rows[i])
  {
    PrefixHasColumn(rows, col, i + 1);
    assert rows[..i + 1][..i] == rows[..i];
  }

  /** The sum of the counts listed under `keys`. */
  function SumAt(keys: seq<string>, at: map<string, nat>): nat
    requires forall k | k in keys :: k in at
  {
    if keys == [] then 0 else SumAt(keys[..|keys| - 1], at) + at[keys[|keys| - 1]]
  }

  /** Changing the count of one key changes the sum by the difference,
      provided the key is listed at most once. */
  lemma {:induction false} SumAtUpdate(keys: seq<string>, at: map<string, nat>, v: string, n: nat)
    requires Distinct(keys) && forall k | k in keys :: k in at
    ensures SumAt(keys, at[v := n]) == SumAt(keys, at) + (if v in keys then n - at[v] else 0)
  {
    if keys != [] {
      var init := keys[..|keys| - 1];
      assert keys == init + [keys[|keys| - 1]];
      SumAtUpdate(init, at, v, n);
      assert v in init ==> keys[|keys| - 1] != v;
    }
  }

  /** Counting one more occurrence adds one to the sum of the counts. */
  lemma SumAtBump(m: OrderedMap<nat>, v: string)
    requires WellOrdered(m)
    ensures forall k | k in Bump(m, v).keys :: k in Bump(m, v).at
    ensures SumAt(Bump(m, v).keys, Bump(m, v).at) == SumAt(m.keys, m.at) + 1
  {
    if v in m.at {
      SumAtUpdate(m.keys, m.at, v, m.at[v] + 1);
    } else {
      var ks := m.keys + [v];
      SumAtUpdate(m.keys, m.at, v, 1);
      assert ks[..|ks| - 1] == m.keys;
    }
  }

  /** The label counts of a table sum to its number of rows. */
  lemma {:induction false} TallyTotal(rows: seq<Row>, col: nat)
    requires HasColumn(rows, col)
    ensures SumAt(Tally(rows, col).keys, Tally(rows, col).at) == |rows|
  {
    if rows != [] {
      PrefixHasColumn(rows, col, |rows| - 1);
      TallyTotal(rows[..|rows| - 1], col);
      TallyWellOrdered(rows[..|rows| - 1], col);
      SumAtBump(Tally(rows[..|rows| - 1], col), rows[|rows| - 1][col]);
    }
  }

  /** The sizes of the groups of a partition. */
  function GroupSizes(g: OrderedMap<seq<Row>>): map<string, nat>
  {
    map v | v in g.at :: |g.at[v]|
  }

  /** The groups of a partition have as many rows as the label count of their
      key, so their sizes sum to the number of rows. */
  lemma PartitionSizes(rows: seq<Row>, col: nat)
    requires HasColumn(rows, col)
    ensures GroupSizes(Group(rows, col)) == Tally(rows, col).at
    ensures SumAt(Group(rows, col).keys, GroupSizes(Group(rows, col))) == |rows|
  {
    var g := Group(rows, col);
    var t := Tally(rows, col);
    assert GroupSizes(g) == t.at by {
      forall v | v in t.at ensures GroupSizes(g)[v] == t.at[v] {
        TallyCounts(rows, col, v);
        GroupMatching(rows, col, v);
      }
    }
    TallyTotal(rows, col);
  }

  /** Every group is non-empty, and it holds exactly the rows carrying its key. */
  lemma PartitionSound(rows: seq<Row>, col: nat, v: string)
    requires HasColumn(rows, col) && v in Group(rows, col).at
    ensures Group(rows, col).at[v] != []
    ensures forall x :: x in Group(rows, col).at[v] <==> x in rows && x[col] == v
  {
    TallyCounts(rows, col, v);
    GroupMatching(rows, col, v);
    MatchingMembers(rows, col, v);
  }

  /** A row lands in the group of its own value. */
  lemma GroupedRow(rows: seq<Row>, col: nat, r: Row)
    requires HasColumn(rows, col) && r in rows
    ensures r[col] in Group(rows, col).at && r in Group(rows, col).at[r[col]]
  {
    assert r[col] in ColumnValues(rows, col);
    TallyKeys(rows, col);
    GroupMatching(rows, col, r[col]);
    MatchingMembers(rows, col, r[col]);
  }

  /** Python's `max(d, key=lambda k: d[k])` over an insertion-ordered dict:
      the index of the first key whose count is maximal. */
  function FirstMaxIndex(keys: seq<string>, at: map<string, nat>): (i: nat)
    requires keys != [] && forall k | k in keys :: k in at
    ensures i < |keys|
    ensures forall j | 0 <= j < |keys| :: at[keys[j]] <= at[keys[i]]
    ensures forall j | 0 <= j < i :: at[keys[j]] < at[keys[i]]
  {
    if |keys| == 1 then 0
    else
      var i := FirstMaxIndex(keys[..|keys| - 1], at);
      if at[keys[|keys| - 1]] > at[keys[i]] then |keys| - 1 else i
  }

  /** `most_common_label`: None stands for the ValueError `max` raises on an
      empty dict. */
  function MostCommonLabel(labels: OrderedMap<nat>): (r: Option<string>)
    requires forall k | k in labels.keys :: k in labels.at
    ensures r.None? <==> labels.keys == []
    ensures r.Some? ==> r.value in labels.keys
    ensures r.Some? ==> forall k | k in labels.keys :: labels.at[k] <= labels.at[r.value]
  {
    if labels.keys == [] then None
    else Some(labels.keys[FirstMaxIndex(labels.keys, labels.at)])
  }

  /** The column of `name` in a header: its last occurrence, since a later
      `name_to_idx[headers[i]] = i` overwrites an earlier one. */
  ghost predicate IsLastIndex(headers: seq<string>, name: string, i: nat)
  {
    i < |headers| && headers[i] == name && forall j | i < j < |headers| :: headers[j] != name
  }

  /** `idxToName` and `nameToIdx` are the maps `get_header_name_to_idx_maps`
      builds for `headers`. */
  ghost predicate NameMapsOf(headers: seq<string>, idxToName: map<nat, string>, nameToIdx: map<string, nat>)
  {
    && (forall i: nat :: i in idxToName <==> i < |headers|)
    && (forall i | i in idxToName :: idxToName[i] == headers[i])
    && (forall n :: n in nameToIdx <==> n in headers)
    && (forall n | n in nameToIdx :: IsLastIndex(headers, n, nameToIdx[n]))
  }

  /** `get_header_name_to_idx_maps`: `idxToName` names every column,
      `nameToIdx` maps every header name to its (last) column. */
  method GetHeaderNameToIdxMaps(headers: seq<string>) returns (idxToName: map<nat, string>, nameToIdx: map<string, nat>)
    ensures forall i: nat :: i in idxToName <==> i < |headers|
    ensures forall i | i in idxToName :: idxToName[i] == headers[i]
    ensures forall n :: n in nameToIdx <==> n in headers
    ensures forall n | n in nameToIdx :: IsLastIndex(headers, n, nameToIdx[n])
    ensures Distinct(headers) ==> forall i | 0 <= i < |headers| :: nameToIdx[headers[i]] == i
  {
    idxToName, nameToIdx := map[], map[];
    for i := 0 to |headers|
      invariant forall k: nat :: k in idxToName <==> k < i
      invariant forall k | k in idxToName :: idxToName[k] == headers[k]
      invariant forall n :: n in nameToIdx <==> n in headers[..i]
      invariant forall n | n in nameToIdx :: IsLastIndex(headers[..i], n, nameToIdx[n])
    {
      nameToIdx := nameToIdx[headers[i] := i];
      idxToName := idxToName[i := headers[i]];
      assert headers[..i + 1] == headers[..i] + [headers[i]];
    }
    assert headers[..|headers|] == headers;
  }

  /** `get_class_labels(data, target)`: a KeyError when the target is not a
      column, otherwise the label counts of the target column. */
  method GetClassLabels(rows: seq<Row>, nameToIdx: map<string, nat>, target: string)
    returns (r: Result<OrderedMap<nat>>)
    requires target in nameToIdx ==> HasColumn(rows, nameToIdx[target])
    ensures target !in nameToIdx ==> r == Err(KeyError(target))
    ensures target in nameToIdx ==> r == Ok(Tally(rows, nameToIdx[target]))
  {
    if target !in nameToIdx {
      return Err(KeyError(target));
    }
    var col := nameToIdx[target];
    var labels := OrderedMap([], map[]);
    for i := 0 to |rows|
      invariant HasColumn(rows[..i], col)
      invariant labels == Tally(rows[..i], col)
    {
      var val := rows[i][col];
      if val in labels.at {
        labels := OrderedMap(labels.keys, labels.at[val := labels.at[val] + 1]);
      } else {
        labels := OrderedMap(labels.keys + [val], labels.at[val := 1]);
      }
      assert rows[..i + 1][..i] == rows[..i];
    }
    assert rows[..|rows|] == rows;
    return Ok(labels);
  }

  /** `partition_data(data, group_att)`: a KeyError when the attribute is not a
      column, otherwise the rows grouped by their value in that column. */
  method PartitionData(rows: seq<Row>, nameToIdx: map<string, nat>, groupAtt: string)
    returns (r: Result<OrderedMap<seq<Row>>>)
    requires groupAtt in nameToIdx ==> HasColumn(rows, nameToIdx[groupAtt])
    ensures groupAtt !in nameToIdx ==> r == Err(KeyError(groupAtt))
    ensures groupAtt in nameToIdx ==> r == Ok(Group(rows, nameToIdx[groupAtt]))
  {
    if groupAtt !in nameToIdx {
      return Err(KeyError(groupAtt));
    }
    var col := nameToIdx[groupAtt];
    var partitions := OrderedMap([], map[]);
    for i := 0 to |rows|
      invariant HasColumn(rows[..i], col)
      invariant partitions == Group(rows[..i], col)
    {
      var row := rows[i];
      var rowVal := row[col];
      AppendInTwoSteps(partitions, rowVal, row);
      ghost var before := partitions;
      if rowVal !in partitions.at {
        partitions := OrderedMap(partitions.keys + [rowVal], partitions.at[rowVal := []]);
      }
      partitions := OrderedMap(partitions.keys, partitions.at[rowVal := partitions.at[rowVal] + [row]]);
      assert partitions == Append(before, rowVal, row);
      GroupSnoc(rows, col, i);
    }
    assert rows[..|rows|] == rows;
    return Ok(partitions);
  }

  /** Every row has a cell at every column the index map names. */
  ghost predicate CoversIndices(rows: seq<Row>, idxToName: map<nat, string>)
  {
    forall n | n in idxToName :: HasColumn(rows, n)
  }

  /** The values found in the columns called `name`. */
  function ValuesNamed(rows: seq<Row>, idxToName: map<nat, string>, name: string): set<string>
    requires CoversIndices(rows, idxToName)
  {
    set i, n | 0 <= i < |rows| && n in idxToName && idxToName[n] == name :: rows[i][n]
  }

  /** The value universe `get_uniq_values` builds, as written: one entry per
      column name, but a value that equals some column name is never added,
      because the test reads `val not in val_map.keys()`. */
  function UniqValuesAsWritten(rows: seq<Row>, idxToName: map<nat, string>): (u: map<string, set<string>>)
    requires CoversIndices(rows, idxToName)
  {
    map name | name in idxToName.Values :: ValuesNamed(rows, idxToName, name) - idxToName.Values
  }

  /** What `get_uniq_values` puts in the entry of a column's name: exactly
      the values seen in the columns of that name that are not themselves
      column names. */
  lemma UniqValuesAsWrittenMembers(rows: seq<Row>, idxToName: map<nat, string>, n: nat, x: string)
    requires CoversIndices(rows, idxToName) && n in idxToName
    ensures idxToName[n] in UniqValuesAsWritten(rows, idxToName)
    ensures x in UniqValuesAsWritten(rows, idxToName)[idxToName[n]]
        <==> && x !in idxToName.Values
             && exists i, m | 0 <= i < |rows| && m in idxToName && idxToName[m] == idxToName[n] :: rows[i][m] == x
  {
    assert idxToName[n] in idxToName.Values;
  }

  /** The value universe without the quirk: every value seen in the column. */
  function UniqValues(rows: seq<Row>, idxToName: map<nat, string>): (u: map<string, set<string>>)
    requires CoversIndices(rows, idxToName)
    ensures u.Keys == idxToName.Values
  {
    map name | name in idxToName.Values :: ValuesNamed(rows, idxToName, name)
  }

  /** Every value seen in a column is in the universe of the column's name,
      whatever it is. */
  lemma UniqValuesComplete(rows: seq<Row>, idxToName: map<nat, string>, i: nat, n: nat)
    requires CoversIndices(rows, idxToName) && i < |rows| && n in idxToName
    ensures idxToName[n] in UniqValues(rows, idxToName)
    ensures rows[i][n] in UniqValues(rows, idxToName)[idxToName[n]]
  {
    assert idxToName[n] in idxToName.Values;
    assert rows[i][n] in ValuesNamed(rows, idxToName, idxToName[n]);
  }

  lemma PrefixCoversIndices(rows: seq<Row>, idxToName: map<nat, string>, k: nat)
    requires CoversIndices(rows, idxToName) && k <= |rows|
    ensures CoversIndices(rows[..k], idxToName)
  {
  }

  /** The values one row contributes to the entry `name`, over the columns in
      `done`, skipping values that equal a column name. */
  function RowValuesAsWritten(row: Row, idxToName: map<nat, string>, done: set<nat>, name: string): set<string>
    requires forall n | n in idxToName :: n < |row|
  {
    set n | n in done && n in idxToName && idxToName[n] == name && row[n] !in idxToName.Values :: row[n]
  }

  /** Reading one more row adds that row's values. */
  lemma ValuesNamedSnoc(rows: seq<Row>, idxToName: map<nat, string>, k: nat, name: string)
    requires CoversIndices(rows, idxToName) && k < |rows|
    ensures CoversIndices(rows[..k], idxToName) && CoversIndices(rows[..k + 1], idxToName)
    ensures ValuesNamed(rows[..k + 1], idxToName, name) - idxToName.Values
         == (ValuesNamed(rows[..k], idxToName, name) - idxToName.Values)
            + RowValuesAsWritten(rows[k], idxToName, idxToName.Keys, name)
  {
    PrefixCoversIndices(rows, idxToName, k);
    PrefixCoversIndices(rows, idxToName, k + 1);
    var pre, post := rows[..k], rows[..k + 1];
    forall x | x in ValuesNamed(post, idxToName, name)
      ensures x in ValuesNamed(pre, idxToName, name)
            || exists n :: n in idxToName && idxToName[n] == name && rows[k][n] == x
    {
      var i, n :| 0 <= i < |post| && n in idxToName && idxToName[n] == name && post[i][n] == x;
      if i < k {
        assert pre[i][n] == x;
      }
    }
    forall x | x in ValuesNamed(pre, idxToName, name) ensures x in ValuesNamed(post, idxToName, name) {
      var i, n :| 0 <= i < |pre| && n in idxToName && idxToName[n] == name && pre[i][n] == x;
      assert post[i][n] == x;
    }
    forall n | n in idxToName && idxToName[n] == name ensures rows[k][n] in ValuesNamed(post, idxToName, name) {
      assert post[k][n] == rows[k][n];
    }
  }

  /** Adding one row's values entry by entry. */
  function WithRow(u: map<string, set<string>>, row: Row, idxToName: map<nat, string>): map<string, set<string>>
    requires forall n | n in idxToName :: n < |row|
  {
    map name | name in u :: u[name] + RowValuesAsWritten(row, idxToName, idxToName.Keys, name)
  }

  lemma UniqValuesSnoc(rows: seq<Row>, idxToName: map<nat, string>, k: nat)
    requires CoversIndices(rows, idxToName) && k < |rows|
    ensures CoversIndices(rows[..k], idxToName) && CoversIndices(rows[..k + 1], idxToName)
    ensures UniqValuesAsWritten(rows[..k + 1], idxToName)
         == WithRow(UniqValuesAsWritten(rows[..k], idxToName), rows[k], idxToName)
  {
    PrefixCoversIndices(rows, idxToName, k);
    PrefixCoversIndices(rows, idxToName, k + 1);
    var post := UniqValuesAsWritten(rows[..k + 1], idxToName);
    var step := WithRow(UniqValuesAsWritten(rows[..k], idxToName), rows[k], idxToName);
    assert post.Keys == step.Keys;
    forall name | name in post ensures post[name] == step[name] {
      ValuesNamedSnoc(rows, idxToName, k, name);
    }
    MapsAgree(post, step);
  }

  /** Two maps with the same keys and the same value at each key are equal. */
  lemma MapsAgree<K, V>(m: map<K, V>, n: map<K, V>)
    requires m.Keys == n.Keys && forall k | k in m :: m[k] == n[k]
    ensures m == n
  {
  }

  /** The inner loop of `get_uniq_values`: record the values of one row,
      each under its column's name, unless the value is itself a column name. */
  method AddRowValues(valMap: map<string, set<string>>, dataRow: Row, idxToName: map<nat, string>)
    returns (u: map<string, set<string>>)
    requires valMap.Keys == idxToName.Values
    requires forall n | n in idxToName :: n < |dataRow|
    ensures u == WithRow(valMap, dataRow, idxToName)
  {
    u := valMap;
    var todo := idxToName.Keys;
    while todo != {}
      invariant todo <= idxToName.Keys
      invariant u.Keys == valMap.Keys
      invariant forall name | name in u ::
        u[name] == valMap[name] + RowValuesAsWritten(dataRow, idxToName, idxToName.Keys - todo, name)
      decreases todo
    {
      var idx :| idx in todo;
      assert idxToName.Keys - (todo - {idx}) == (idxToName.Keys - todo) + {idx};
      u := AddValue(valMap, u, dataRow, idxToName, idxToName.Keys - todo, idx);
      todo := todo - {idx};
    }
    assert idxToName.Keys - todo == idxToName.Keys;
    assert u.Keys == WithRow(valMap, dataRow, idxToName).Keys;
  }

  /** One pass of the inner loop of `get_uniq_values`: the value at column
      `idx` is added under that column's name unless it is a column name. */
  method AddValue(valMap: map<string, set<string>>, u: map<string, set<string>>, dataRow: Row,
                  idxToName: map<nat, string>, ghost done: set<nat>, idx: nat)
    returns (w: map<string, set<string>>)
    requires valMap.Keys == idxToName.Values && u.Keys == valMap.Keys && idx in idxToName
    requires forall n | n in idxToName :: n < |dataRow|
    requires forall name | name in u :: u[name] == valMap[name] + RowValuesAsWritten(dataRow, idxToName, done, name)
    ensures w.Keys == valMap.Keys
    ensures forall name | name in w :: w[name] == valMap[name] + RowValuesAsWritten(dataRow, idxToName, done + {idx}, name)
  {
    RowValuesStep(dataRow, idxToName, done, idx);
    var attName := idxToName[idx];
    var val := dataRow[idx];
    w := u;
    if val !in u.Keys {
      w := u[attName := u[attName] + {val}];
    }
  }

  /** Visiting one more column of a row adds its value to that column's
      entry, unless the value is a column name. */
  lemma RowValuesStep(row: Row, idxToName: map<nat, string>, done: set<nat>, idx: nat)
    requires forall n | n in idxToName :: n < |row|
    requires idx in idxToName
    ensures forall name ::
              RowValuesAsWritten(row, idxToName, done + {idx}, name)
              == RowValuesAsWritten(row, idxToName, done, name)
                 + (if idxToName[idx] == name && row[idx] !in idxToName.Values then {row[idx]} else {})
  {
  }

  /** `get_uniq_values`: for every column name, the set of values seen in
      that column, except those equal to a column name. */
  method GetUniqValues(rows: seq<Row>, idxToName: map<nat, string>) returns (valMap: map<string, set<string>>)
    requires CoversIndices(rows, idxToName)
    ensures valMap == UniqValuesAsWritten(rows, idxToName)
  {
    valMap := map name | name in idxToName.Values :: {};
    PrefixCoversIndices(rows, idxToName, 0);
    assert valMap == UniqValuesAsWritten(rows[..0], idxToName) by {
      var u := UniqValuesAsWritten(rows[..0], idxToName);
      forall name | name in idxToName.Values ensures u[name] == {} {
        assert ValuesNamed(rows[..0], idxToName, name) == {};
      }
      assert u.Keys == valMap.Keys;
    }
    for k := 0 to |rows|
      invariant CoversIndices(rows[..k], idxToName)
      invariant valMap == UniqValuesAsWritten(rows[..k], idxToName)
    {
      UniqValuesSnoc(rows, idxToName, k);
      valMap := AddRowValues(valMap, rows[k], idxToName);
    }
    assert rows[..|rows|] == rows;
  }

  /** On a table where no cell equals a column name, the quirk is harmless:
      the universe as written is the corrected one. */
  lemma UniqValuesAsWrittenAgrees(rows: seq<Row>, idxToName: map<nat, string>)
    requires CoversIndices(rows, idxToName)
    requires forall i, n | 0 <= i < |rows| && n in idxToName :: rows[i][n] !in idxToName.Values
    ensures UniqValuesAsWritten(rows, idxToName) == UniqValues(rows, idxToName)
  {
    var a := UniqValuesAsWritten(rows, idxToName);
    var b := UniqValues(rows, idxToName);
    forall name | name in a ensures a[name] == b[name] {
      assert ValuesNamed(rows, idxToName, name) * idxToName.Values == {};
    }
    MapsAgree(a, b);
  }

  /** A concrete table on which the quirk shows: column `a` holds the value
      "label", which is also a column name, so the universe of `a` as written
      misses it while the corrected universe has it. */
  lemma UniqValuesQuirk()
    ensures var rows := [["label", "x"], ["b", "y"]];
            var idxToName := map[0 := "a", 1 := "label"];
            && CoversIndices(rows, idxToName)
            && idxToName[0] == "a" && "a" in idxToName.Values
            && UniqValuesAsWritten(rows, idxToName)["a"] == {"b"}
            && UniqValues(rows, idxToName)["a"] == {"label", "b"}
  {
    var rows := [["label", "x"], ["b", "y"]];
    var idxToName := map[0 := "a", 1 := "label"];
    assert idxToName.Values == {"a", "label"} by {
      assert idxToName[0] == "a" && idxToName[1] == "label";
    }
    assert rows[0][0] == "label" && rows[1][0] == "b";
    assert ValuesNamed(rows, idxToName, "a") == {"label", "b"};
  }
}
