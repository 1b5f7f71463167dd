// The bookkeeping of the task manager's table model: the row list of
// resources kept contiguous per process, the process -> group map, the
// per-process metrics entries, and the per-resource network byte counters
// that a periodic refresh turns into displayed usage.
module TaskManager {
  import opened Common

  type Process = nat

  /** A row of the table; equality is identity (the source compares pointers). */
  datatype Resource = Resource(id: nat, process: Process)

  /** What a resource provider is asked in `BytesRead`. */
  datatype ProviderKey = ProviderKey(originPid: int, renderProcessHostId: int, routingId: int)

  /** A resource provider, as the resources it answers for each key. */
  type Provider = map<ProviderKey, Resource>

  datatype BytesReadParam = BytesReadParam(originPid: int, renderProcessHostId: int, routingId: int, byteCount: int)

  function KeyOf(param: BytesReadParam): ProviderKey
  {
    ProviderKey(param.originPid, param.renderProcessHostId, param.routingId)
  }

  /** The refresh period. */
  const UpdateTimeMs: int := 1000

  predicate Distinct<T(==)>(s: seq<T>)
  {
    forall i, j :: 0 <= i < j < |s| ==> s[i] != s[j]
  }

  lemma DistinctRemoveAt<T>(s: seq<T>, i: nat)
    requires Distinct(s) && i < |s|
    ensures Distinct(s[..i] + s[i + 1..])
    ensures forall x :: x in s[..i] + s[i + 1..] <==> x in s && x != s[i]
  {
    var t := s[..i] + s[i + 1..];
    forall a, b | 0 <= a < b < |t|
      ensures t[a] != t[b]
    {
      var a' := if a < i then a else a + 1;
      var b' := if b < i then b else b + 1;
      assert t[a] == s[a'] && t[b] == s[b'];
    }
    forall x
      ensures x in t <==> x in s && x != s[i]
    {
      if x in s && x != s[i] {
        var m :| 0 <= m < |s| && s[m] == x;
        if m < i { assert t[m] == x; } else { assert t[m - 1] == x; }
      }
    }
  }

  lemma DistinctInsert<T>(s: seq<T>, i: nat, x: T)
    requires Distinct(s) && i <= |s| && x !in s
    ensures Distinct(s[..i] + [x] + s[i..])
  {
    var t := s[..i] + [x] + s[i..];
    forall a, b | 0 <= a < b < |t|
      ensures t[a] != t[b]
    {
      if a != i && b != i {
        var a' := if a < i then a else a - 1;
        var b' := if b < i then b else b - 1;
        assert t[a] == s[a'] && t[b] == s[b'];
      } else if a == i {
        assert t[b] == s[b - 1];
      } else {
        assert t[a] == s[a];
      }
    }
  }

  /** `std::find` over a vector: the first index holding `x`. */
  method FindIndex<T(==)>(s: seq<T>, x: T) returns (i: nat)
    requires x in s
    ensures i < |s| && s[i] == x && x !in s[..i]
  {
    i := 0;
    while s[i] != x
      invariant i < |s| && x in s[i..] && x !in s[..i]
      decreases |s| - i
    {
      assert s[i..] == [s[i]] + s[i + 1..];
      assert s[..i + 1] == s[..i] + [s[i]];
      i := i + 1;
    }
  }

  lemma DistinctSlice<T>(s: seq<T>, a: nat, b: nat)
    requires Distinct(s) && a <= b <= |s|
    ensures Distinct(s[a..b])
  {
    var t := s[a..b];
    forall i, j | 0 <= i < j < |t|
      ensures t[i] != t[j]
    {
      assert t[i] == s[a + i] && t[j] == s[a + j];
    }
  }

  // ------------------------------------------------------------- groups

  ghost predicate Covers(order: seq<Process>, groups: map<Process, seq<Resource>>)
  {
    forall p :: p in order ==> p in groups
  }

  ghost predicate GroupsTyped(groups: map<Process, seq<Resource>>)
  {
    forall p, x :: p in groups && x in groups[p] ==> x.process == p
  }

  /** The row list the groups spell out when laid end to end in `order`. */
  ghost function Flatten(order: seq<Process>, groups: map<Process, seq<Resource>>): seq<Resource>
    requires Covers(order, groups)
    decreases |order|
  {
    if |order| == 0 then [] else Flatten(order[..|order| - 1], groups) + groups[order[|order| - 1]]
  }

  lemma {:induction false} FlattenAppend(a: seq<Process>, b: seq<Process>, groups: map<Process, seq<Resource>>)
    requires Covers(a, groups) && Covers(b, groups)
    ensures Covers(a + b, groups)
    ensures Flatten(a + b, groups) == Flatten(a, groups) + Flatten(b, groups)
    decreases |b|
  {
    if |b| == 0 {
      assert a + b == a;
    } else {
      var c := a + b;
      assert c[..|c| - 1] == a + b[..|b| - 1];
      FlattenAppend(a, b[..|b| - 1], groups);
    }
  }

  lemma {:induction false} FlattenAgree(order: seq<Process>, g1: map<Process, seq<Resource>>, g2: map<Process, seq<Resource>>)
    requires Covers(order, g1) && Covers(order, g2)
    requires forall p :: p in order ==> g1[p] == g2[p]
    ensures Flatten(order, g1) == Flatten(order, g2)
    decreases |order|
  {
    if |order| > 0 {
      FlattenAgree(order[..|order| - 1], g1, g2);
    }
  }

  lemma {:induction false} FlattenProcesses(order: seq<Process>, groups: map<Process, seq<Resource>>)
    requires Covers(order, groups) && GroupsTyped(groups)
    ensures forall x :: x in Flatten(order, groups) ==> x.process in order && x in groups[x.process]
    decreases |order|
  {
    if |order| > 0 {
      var init := order[..|order| - 1];
      FlattenProcesses(init, groups);
      forall x | x in Flatten(order, groups)
        ensures x.process in order && x in groups[x.process]
      {
        if x in Flatten(init, groups) {
          assert x.process in init;
        }
      }
    }
  }

  /** The groups before, at and after position `k`. */
  lemma FlattenSplitAt(order: seq<Process>, groups: map<Process, seq<Resource>>, k: nat)
    requires Covers(order, groups) && k < |order|
    ensures Flatten(order, groups)
      == Flatten(order[..k], groups) + groups[order[k]] + Flatten(order[k + 1..], groups)
  {
    var pre, mid, post := order[..k], [order[k]], order[k + 1..];
    var rest := mid + post;
    assert order == pre + rest;
    FlattenAppend(pre, rest, groups);
    FlattenAppend(mid, post, groups);
    FlattenSingleton(order[k], groups);
  }

  lemma FlattenSingleton(p: Process, groups: map<Process, seq<Resource>>)
    requires p in groups
    ensures Covers([p], groups) && Flatten([p], groups) == groups[p]
  {
    assert [p][..0] == [];
  }

  /** The state the model keeps: each process with resources has a
      non-empty group of its own resources, the row list is the groups laid
      end to end (so every group is contiguous and in group order), and no
      resource appears twice. */
  ghost predicate ValidState(order: seq<Process>, groups: map<Process, seq<Resource>>, rows: seq<Resource>)
  {
    Distinct(order)
    && (forall p :: p in groups <==> p in order)
    && (forall p :: p in groups ==> |groups[p]| > 0)
    && GroupsTyped(groups)
    && rows == Flatten(order, groups)
    && Distinct(rows)
  }

  /** The last row holding a resource of `p`. */
  function LastIndexOfProcess(rows: seq<Resource>, p: Process): (r: Option<nat>)
    ensures r.Some? ==> r.value < |rows| && rows[r.value].process == p
    ensures r.Some? ==> forall j :: r.value < j < |rows| ==> rows[j].process != p
    ensures r.None? ==> forall j :: 0 <= j < |rows| ==> rows[j].process != p
    decreases |rows|
  {
    if |rows| == 0 then None
    else if rows[|rows| - 1].process == p then Some(|rows| - 1)
    else LastIndexOfProcess(rows[..|rows| - 1], p)
  }

  /** `AddResource`'s placement: after the last row of the resource's
      process, or at the end when the process has no row yet. */
  function InsertInGroup(rows: seq<Resource>, r: Resource): (s: seq<Resource>)
    ensures |s| == |rows| + 1
  {
    match LastIndexOfProcess(rows, r.process)
    case None => rows + [r]
    case Some(i) => rows[..i + 1] + [r] + rows[i + 1..]
  }

  /** The row at which `InsertInGroup` puts the new resource. */
  function AddedRow(rows: seq<Resource>, r: Resource): (row: nat)
    ensures row < |InsertInGroup(rows, r)| && InsertInGroup(rows, r)[row] == r
  {
    match LastIndexOfProcess(rows, r.process)
    case None => |rows|
    case Some(i) => i + 1
  }

  /** The row `AddResource` reports to the table observer as written: the
      row of the group's previous last member. */
  function NotifiedRowAsWritten(rows: seq<Resource>, r: Resource): nat
  {
    match LastIndexOfProcess(rows, r.process)
    case None => |rows|
    case Some(i) => i
  }

  /** When the process already has rows, the observer is told that a row was
      added one above the row where the resource was put. */
  lemma NotifiedRowAsWrittenIsOffByOne(rows: seq<Resource>, r: Resource)
    requires r !in rows
    requires LastIndexOfProcess(rows, r.process).Some?
    ensures NotifiedRowAsWritten(rows, r) + 1 == AddedRow(rows, r)
    ensures InsertInGroup(rows, r)[NotifiedRowAsWritten(rows, r)] != r
  {
    var i := LastIndexOfProcess(rows, r.process).value;
    assert InsertInGroup(rows, r)[i] == rows[i];
  }

  /** A concrete case: two tabs of one renderer process. */
  lemma NotifiedRowAsWrittenExample()
    ensures InsertInGroup([Resource(1, 7)], Resource(2, 7)) == [Resource(1, 7), Resource(2, 7)]
    ensures NotifiedRowAsWritten([Resource(1, 7)], Resource(2, 7)) == 0
    ensures AddedRow([Resource(1, 7)], Resource(2, 7)) == 1
  {
    assert LastIndexOfProcess([Resource(1, 7)], 7) == Some(0);
  }

  lemma AddNewGroup(order: seq<Process>, groups: map<Process, seq<Resource>>, rows: seq<Resource>, r: Resource)
    requires ValidState(order, groups, rows) && r !in rows && r.process !in groups
    ensures ValidState(order + [r.process], groups[r.process := [r]], rows + [r])
    ensures InsertInGroup(rows, r) == rows + [r] && AddedRow(rows, r) == |rows|
  {
    var p := r.process;
    var groups' := groups[p := [r]];
    var order' := order + [p];
    assert Flatten(order', groups') == rows + [r] by {
      assert order'[..|order'| - 1] == order;
      FlattenAgree(order, groups', groups);
    }
    assert forall j :: 0 <= j < |rows| ==> rows[j].process != p by {
      FlattenProcesses(order, groups);
      forall j | 0 <= j < |rows|
        ensures rows[j].process != p
      {
        assert rows[j] in rows;
      }
    }
    assert LastIndexOfProcess(rows, p).None?;
    assert Distinct(rows + [r]) by {
      DistinctInsert(rows, |rows|, r);
      assert rows[..|rows|] + [r] + rows[|rows|..] == rows + [r];
    }
    assert Distinct(order');
    assert forall q :: q in groups' <==> q in order';
    assert GroupsTyped(groups');
  }

  /** A process occurs once in the group order. */
  lemma OnlyAt(order: seq<Process>, k: nat)
    requires Distinct(order) && k < |order|
    ensures order[k] !in order[..k] && order[k] !in order[k + 1..]
  {
    forall m | 0 <= m < |order| && m != k
      ensures order[m] != order[k]
    {
    }
    assert forall m :: 0 <= m < k ==> order[..k][m] == order[m];
    var after := order[k + 1..];
    forall m | 0 <= m < |after|
      ensures after[m] != order[k]
    {
      assert after[m] == order[k + 1 + m];
    }
  }

  /** The rows are the groups before `k`, the group at `k`, and the groups
      after it, and only the middle part holds resources of its process. */
  lemma GroupSplit(order: seq<Process>, groups: map<Process, seq<Resource>>, rows: seq<Resource>, k: nat)
    requires ValidState(order, groups, rows) && k < |order|
    ensures order[k] !in order[..k] && order[k] !in order[k + 1..]
    ensures rows == Flatten(order[..k], groups) + groups[order[k]] + Flatten(order[k + 1..], groups)
    ensures forall x :: x in Flatten(order[..k], groups) ==> x.process != order[k]
    ensures forall x :: x in Flatten(order[k + 1..], groups) ==> x.process != order[k]
  {
    OnlyAt(order, k);
    FlattenSplitAt(order, groups, k);
    FlattenProcesses(order[..k], groups);
    FlattenProcesses(order[k + 1..], groups);
  }

  /** The last row of a process is the last row of its group. */
  lemma LastIndexOfGroup(order: seq<Process>, groups: map<Process, seq<Resource>>, rows: seq<Resource>, k: nat)
    requires ValidState(order, groups, rows) && k < |order|
    ensures var i := |Flatten(order[..k], groups)| + |groups[order[k]]| - 1;
      0 <= i < |rows| && rows[i] == groups[order[k]][|groups[order[k]]| - 1]
      && LastIndexOfProcess(rows, order[k]) == Some(i)
  {
    GroupSplit(order, groups, rows, k);
    var p := order[k];
    var g := groups[p];
    var A := Flatten(order[..k], groups);
    var B := Flatten(order[k + 1..], groups);
    var i := |A| + |g| - 1;
    assert rows[i] == g[|g| - 1];
    assert rows[i] in g;
    forall j | i < j < |rows|
      ensures rows[j].process != p
    {
      assert rows[j] == B[j - |A| - |g|];
      assert rows[j] in B;
    }
  }

  /** Replacing the group at `k` by `g'` lays out the same groups around it. */
  lemma FlattenReplaceAt(order: seq<Process>, groups: map<Process, seq<Resource>>, k: nat, g': seq<Resource>)
    requires Covers(order, groups) && Distinct(order) && k < |order|
    ensures Flatten(order, groups[order[k] := g'])
      == Flatten(order[..k], groups) + g' + Flatten(order[k + 1..], groups)
  {
    var groups' := groups[order[k] := g'];
    OnlyAt(order, k);
    FlattenSplitAt(order, groups', k);
    FlattenAgree(order[..k], groups', groups);
    FlattenAgree(order[k + 1..], groups', groups);
  }

  /** A non-empty group of the same process may replace the group at `k`
      when the rows it yields stay distinct. */
  lemma ReplaceGroupValid(order: seq<Process>, groups: map<Process, seq<Resource>>, rows: seq<Resource>, k: nat, g': seq<Resource>)
    requires ValidState(order, groups, rows) && k < |order|
    requires |g'| > 0 && forall x :: x in g' ==> x.process == order[k]
    requires Distinct(Flatten(order[..k], groups) + g' + Flatten(order[k + 1..], groups))
    ensures ValidState(order, groups[order[k] := g'], Flatten(order[..k], groups) + g' + Flatten(order[k + 1..], groups))
  {
    FlattenReplaceAt(order, groups, k, g');
    ReplaceGroupShape(order, groups, order[k], g', groups[order[k] := g']);
  }

  /** Replacing a present process's group by a non-empty group of its own
      resources keeps the map's domain, non-emptiness and typing. */
  lemma ReplaceGroupShape(order: seq<Process>, groups: map<Process, seq<Resource>>, p: Process, g': seq<Resource>,
                           groups': map<Process, seq<Resource>>)
    requires (forall q :: q in groups <==> q in order) && (forall q :: q in groups ==> |groups[q]| > 0)
    requires GroupsTyped(groups) && p in groups
    requires |g'| > 0 && forall x :: x in g' ==> x.process == p
    requires groups' == groups[p := g']
    ensures forall q :: q in groups' <==> q in order
    ensures forall q :: q in groups' ==> |groups'[q]| > 0
    ensures GroupsTyped(groups')
  {
  }

  /** Appending `r` to the group at `k`, whose last row is `i`, inserts it
      into the rows just after `i`. */
  lemma AppendToGroupValid(order: seq<Process>, groups: map<Process, seq<Resource>>, rows: seq<Resource>, r: Resource, k: nat, i: nat)
    requires ValidState(order, groups, rows) && r !in rows
    requires k < |order| && order[k] == r.process
    requires i == |Flatten(order[..k], groups)| + |groups[r.process]| - 1
    ensures i < |rows|
    ensures ValidState(order, groups[r.process := groups[r.process] + [r]], rows[..i + 1] + [r] + rows[i + 1..])
  {
    var g := groups[r.process];
    var A := Flatten(order[..k], groups);
    var B := Flatten(order[k + 1..], groups);
    assert rows == A + g + B by {
      GroupSplit(order, groups, rows, k);
    }
    var rows' := rows[..i + 1] + [r] + rows[i + 1..];
    assert rows' == A + (g + [r]) + B by {
      assert rows[..i + 1] == A + g;
      assert rows[i + 1..] == B;
    }
    assert Distinct(rows') by {
      DistinctInsert(rows, i + 1, r);
    }
    assert forall x :: x in g + [r] ==> x.process == order[k] by {
      assert forall x :: x in g ==> x.process == order[k];
    }
    ReplaceGroupValid(order, groups, rows, k, g + [r]);
  }

  lemma AddToGroup(order: seq<Process>, groups: map<Process, seq<Resource>>, rows: seq<Resource>, r: Resource, k: nat)
    returns (i: nat)
    requires ValidState(order, groups, rows) && r !in rows
    requires k < |order| && order[k] == r.process
    ensures var g := groups[r.process];
      i < |rows| && rows[i] == g[|g| - 1]
    ensures forall m :: 0 <= m < |rows| && rows[m] == rows[i] ==> m == i
    ensures InsertInGroup(rows, r) == rows[..i + 1] + [r] + rows[i + 1..]
    ensures AddedRow(rows, r) == i + 1
    ensures ValidState(order, groups[r.process := groups[r.process] + [r]], InsertInGroup(rows, r))
  {
    LastIndexOfGroup(order, groups, rows, k);
    i := |Flatten(order[..k], groups)| + |groups[r.process]| - 1;
    assert LastIndexOfProcess(rows, r.process) == Some(i);
    assert InsertInGroup(rows, r) == rows[..i + 1] + [r] + rows[i + 1..];
    AppendToGroupValid(order, groups, rows, r, k, i);
  }

  lemma RemoveKeepsGroup(order: seq<Process>, groups: map<Process, seq<Resource>>, rows: seq<Resource>, r: Resource, k: nat, j: nat)
    returns (row: nat)
    requires ValidState(order, groups, rows)
    requires k < |order| && order[k] == r.process
    requires j < |groups[r.process]| && groups[r.process][j] == r && |groups[r.process]| > 1
    ensures row < |rows| && rows[row] == r
    ensures forall m :: 0 <= m < |rows| && rows[m] == r ==> m == row
    ensures r !in rows[..row] + rows[row + 1..]
    ensures var g := groups[r.process];
      ValidState(order, groups[r.process := g[..j] + g[j + 1..]], rows[..row] + rows[row + 1..])
      && r !in g[..j] + g[j + 1..]
  {
    var g := groups[r.process];
    var A := Flatten(order[..k], groups);
    var B := Flatten(order[k + 1..], groups);
    row := |A| + j;
    var g' := g[..j] + g[j + 1..];
    assert rows == A + g + B by {
      GroupSplit(order, groups, rows, k);
    }
    var rows' := rows[..row] + rows[row + 1..];
    assert rows[row] == r;
    assert rows' == A + g' + B;
    assert Distinct(rows') && r !in rows' by {
      DistinctRemoveAt(rows, row);
    }
    assert r !in g' && forall x :: x in g' ==> x.process == order[k] by {
      assert g == rows[|A|..|A| + |g|];
      DistinctSlice(rows, |A|, |A| + |g|);
      DistinctRemoveAt(g, j);
      assert forall x :: x in g ==> x.process == order[k];
    }
    ReplaceGroupValid(order, groups, rows, k, g');
  }

  /** Dropping the group at `k` from the order and the map lays out the
      groups before and after it. */
  lemma DropGroupValid(order: seq<Process>, groups: map<Process, seq<Resource>>, rows: seq<Resource>, k: nat)
    requires ValidState(order, groups, rows) && k < |order|
    requires Distinct(Flatten(order[..k], groups) + Flatten(order[k + 1..], groups))
    ensures ValidState(order[..k] + order[k + 1..], groups - {order[k]},
      Flatten(order[..k], groups) + Flatten(order[k + 1..], groups))
  {
    var p := order[k];
    var groups' := groups - {p};
    var order' := order[..k] + order[k + 1..];
    assert Distinct(order') && forall q :: q in order' <==> q in order && q != p by {
      DistinctRemoveAt(order, k);
    }
    assert Flatten(order', groups') == Flatten(order[..k], groups) + Flatten(order[k + 1..], groups) by {
      OnlyAt(order, k);
      FlattenAgree(order[..k], groups', groups);
      FlattenAgree(order[k + 1..], groups', groups);
      FlattenAppend(order[..k], order[k + 1..], groups');
    }
    assert forall q :: q in groups' <==> q in order';
    assert forall q :: q in groups' ==> |groups'[q]| > 0;
    assert GroupsTyped(groups');
  }

  lemma RemoveLastOfGroup(order: seq<Process>, groups: map<Process, seq<Resource>>, rows: seq<Resource>, r: Resource, k: nat)
    returns (row: nat)
    requires ValidState(order, groups, rows)
    requires k < |order| && order[k] == r.process && groups[r.process] == [r]
    ensures row < |rows| && rows[row] == r
    ensures forall m :: 0 <= m < |rows| && rows[m] == r ==> m == row
    ensures r !in rows[..row] + rows[row + 1..]
    ensures ValidState(order[..k] + order[k + 1..], groups - {r.process}, rows[..row] + rows[row + 1..])
  {
    var A := Flatten(order[..k], groups);
    var B := Flatten(order[k + 1..], groups);
    row := |A|;
    assert rows == A + [r] + B by {
      GroupSplit(order, groups, rows, k);
    }
    var rows' := rows[..row] + rows[row + 1..];
    assert rows[row] == r;
    assert rows' == A + B;
    assert Distinct(rows') && r !in rows' by {
      DistinctRemoveAt(rows, row);
    }
    DropGroupValid(order, groups, rows, k);
  }

  /** Every row belongs to the group of its process, which has a place in
      the group order. */
  lemma RowInItsGroup(order: seq<Process>, groups: map<Process, seq<Resource>>, rows: seq<Resource>, item: nat)
    returns (k: nat)
    requires ValidState(order, groups, rows) && item < |rows|
    ensures k < |order| && order[k] == rows[item].process
    ensures rows[item].process in groups && rows[item] in groups[rows[item].process]
  {
    var p := rows[item].process;
    assert p in groups && rows[item] in groups[p] && exists k: nat :: k < |order| && order[k] == p by {
      FlattenProcesses(order, groups);
      assert rows[item] in rows;
    }
    k :| k < |order| && order[k] == p;
  }

  /** The contiguous block of the group of the resource at `item`. */
  lemma GroupBlock(order: seq<Process>, groups: map<Process, seq<Resource>>, rows: seq<Resource>, item: nat)
    returns (start: nat)
    requires ValidState(order, groups, rows) && item < |rows|
    ensures rows[item].process in groups
    ensures var g := groups[rows[item].process];
      start <= item < start + |g| <= |rows| && rows[start..start + |g|] == g
  {
    var k := RowInItsGroup(order, groups, rows, item);
    var g := groups[order[k]];
    start := |Flatten(order[..k], groups)|;
    assert rows[start..start + |g|] == g by {
      FlattenSplitAt(order, groups, k);
    }
    var m :| 0 <= m < |g| && g[m] == rows[item];
    assert rows[start + m] == rows[item];
  }


  // -------------------------------------------------------- byte counters

  /** C++ integer division, which truncates toward zero. */
  function TruncDiv(a: int, b: int): int
    requires b > 0
  {
    if a >= 0 then a / b else -((-a) / b)
  }

  /** The usage shown for `count` bytes read during a refresh period of
      `periodMs` milliseconds: bytes per second, exact when the period
      divides a second. */
  function UsagePerSecond(count: int, periodMs: int): (r: int)
    requires periodMs > 0
    ensures periodMs <= 1000 && 1000 % periodMs == 0 ==> r * periodMs == count * 1000
  {
    if periodMs > 1000 then TruncDiv(count, periodMs / 1000)
    else count * (1000 / periodMs)
  }

  /** With the one-second refresh period, the displayed usage is the count. */
  function DisplayedUsage(count: int): (r: int)
    ensures r == count
  {
    UsagePerSecond(count, UpdateTimeMs)
  }

  /** The resource of the first provider that knows `key`. */
  function FirstProviderResource(providers: seq<Provider>, key: ProviderKey): Option<Resource>
    decreases |providers|
  {
    if |providers| == 0 then None
    else if key in providers[0] then Some(providers[0][key])
    else FirstProviderResource(providers[1..], key)
  }

  lemma {:induction false} FirstProviderResourceSpec(providers: seq<Provider>, key: ProviderKey)
    ensures FirstProviderResource(providers, key).None? <==> forall i :: 0 <= i < |providers| ==> key !in providers[i]
    ensures FirstProviderResource(providers, key).Some? ==>
      exists i :: 0 <= i < |providers| && key in providers[i]
        && providers[i][key] == FirstProviderResource(providers, key).value
        && forall j :: 0 <= j < i ==> key !in providers[j]
    decreases |providers|
  {
    if |providers| > 0 && key !in providers[0] {
      var rest := providers[1..];
      FirstProviderResourceSpec(rest, key);
      forall i | 0 <= i < |rest|
        ensures rest[i] == providers[i + 1]
      {
      }
      if FirstProviderResource(rest, key).Some? {
        var i :| 0 <= i < |rest| && key in rest[i]
          && rest[i][key] == FirstProviderResource(rest, key).value
          && forall j :: 0 <= j < i ==> key !in rest[j];
        assert forall j :: 0 <= j < i + 1 ==> key !in providers[j] by {
          forall j | 0 <= j < i + 1
            ensures key !in providers[j]
          {
            if j > 0 { assert providers[j] == rest[j - 1]; }
          }
        }
      } else {
        assert forall i :: 0 <= i < |providers| ==> key !in providers[i] by {
          forall i | 0 <= i < |providers|
            ensures key !in providers[i]
          {
            if i > 0 { assert providers[i] == rest[i - 1]; }
          }
        }
      }
    }
  }

  /** What the provider search of `BytesRead` leaves in its result variable. */
  datatype LookupResult = Found(resource: Resource) | NotFound | Indeterminate

  /** The search as written: the result variable starts uninitialised, so
      with no provider at all its value is indeterminate. */
  function ProviderLookupAsWritten(providers: seq<Provider>, key: ProviderKey): LookupResult
  {
    if |providers| == 0 then Indeterminate
    else match FirstProviderResource(providers, key)
      case Some(r) => Found(r)
      case None => NotFound
  }

  /** With an empty provider list the as-written search reads an
      uninitialised pointer; with providers it agrees with the search that
      starts from null. */
  lemma ProviderLookupAsWrittenSpec(providers: seq<Provider>, key: ProviderKey)
    ensures |providers| == 0 ==> ProviderLookupAsWritten(providers, key) == Indeterminate
    ensures |providers| == 0 ==> FirstProviderResource(providers, key) == None
    ensures |providers| > 0 ==>
      (ProviderLookupAsWritten(providers, key) == NotFound <==> FirstProviderResource(providers, key).None?)
  {
  }

  /** The provider search of `BytesRead`, with the result starting null. */
  method LookupResource(providers: seq<Provider>, key: ProviderKey) returns (resource: Option<Resource>)
    ensures resource == FirstProviderResource(providers, key)
  {
    resource := None;
    var i := 0;
    while i < |providers|
      invariant i <= |providers|
      invariant resource.None?
      invariant FirstProviderResource(providers, key) == FirstProviderResource(providers[i..], key)
    {
      assert providers[i..][1..] == providers[i + 1..];
      if key in providers[i] {
        resource := Some(providers[i][key]);
        break;
      }
      i := i + 1;
    }
  }

  // ----------------------------------------------------------- the model

  /** The group bookkeeping of `AddResource`: the resource joins the end of
      its group, or starts a new group after the others; also the row it
      lands in. */
  method InsertIntoLayout(ghost order: seq<Process>, groups: map<Process, seq<Resource>>, rows: seq<Resource>, r: Resource)
      returns (ghost order': seq<Process>, groups': map<Process, seq<Resource>>, rows': seq<Resource>, row: nat)
    requires ValidState(order, groups, rows) && r !in rows
    ensures ValidState(order', groups', rows')
    ensures rows' == InsertInGroup(rows, r)
    ensures row == AddedRow(rows, r) && rows'[row] == r
    ensures r.process in groups ==> groups' == groups[r.process := groups[r.process] + [r]]
    ensures r.process !in groups ==> groups' == groups[r.process := [r]]
  {
    var p := r.process;
    if p !in groups {
      AddNewGroup(order, groups, rows, r);
      groups' := groups[p := [r]];
      rows' := rows + [r];
      order' := order + [p];
      row := |rows|;
    } else {
      assert p in order;
      ghost var k :| 0 <= k < |order| && order[k] == p;
      ghost var last := AddToGroup(order, groups, rows, r, k);
      var entries := groups[p] + [r];
      groups' := groups[p := entries];
      var i := FindIndex(rows, entries[|entries| - 2]);
      assert i == last;
      rows' := rows[..i + 1] + [r] + rows[i + 1..];
      row := i + 1;
      order' := order;
    }
  }

  /** The group bookkeeping of `RemoveResource`: the resource leaves its
      group, and a group left empty leaves the map; also the row it held. */
  method RemoveFromLayout(ghost order: seq<Process>, groups: map<Process, seq<Resource>>, rows: seq<Resource>, r: Resource)
      returns (ghost order': seq<Process>, groups': map<Process, seq<Resource>>, row: nat)
    requires ValidState(order, groups, rows) && r in rows
    ensures row < |rows| && rows[row] == r
    ensures ValidState(order', groups', rows[..row] + rows[row + 1..])
    ensures r !in rows[..row] + rows[row + 1..]
    ensures r.process in groups
    ensures groups[r.process] == [r] ==> groups' == groups - {r.process}
    ensures groups[r.process] != [r] ==>
      r.process in groups' && r !in groups'[r.process]
      && groups' == groups[r.process := groups'[r.process]]
  {
    var p := r.process;
    ghost var k: nat;
    assert p in groups && r in groups[p] && exists k: nat :: k < |order| && order[k] == p by {
      FlattenProcesses(order, groups);
    }
    k :| k < |order| && order[k] == p;
    var entries := groups[p];
    var j := FindIndex(entries, r);
    ghost var at: nat;
    if |entries| == 1 {
      assert entries == [r];
      at := RemoveLastOfGroup(order, groups, rows, r, k);
      groups' := groups - {p};
      order' := order[..k] + order[k + 1..];
    } else {
      at := RemoveKeepsGroup(order, groups, rows, r, k, j);
      var rest := entries[..j] + entries[j + 1..];
      groups' := groups[p := rest];
      order' := order;
    }
    row := FindIndex(rows, r);
    assert row == at;
  }

  class TaskManagerTableModel {
    var resources: seq<Resource>
    var groupMap: map<Process, seq<Resource>>
    /** The processes with a process-metrics entry. */
    var metricsMap: set<Process>
    var currentByteCountMap: map<Resource, int>
    var displayedNetworkUsageMap: map<Resource, int>
    /** The resources marked as supporting network usage. */
    var supportsNetworkUsage: set<Resource>
    var isUpdating: bool
    var providers: seq<Provider>
    /** The order in which the groups are laid out in `resources`. */
    ghost var order: seq<Process>

    ghost predicate Valid()
      reads this
    {
      ValidState(order, groupMap, resources) && metricsMap == groupMap.Keys
    }

    /** An empty, idle model with the browser-process, web-contents and
        plugin-process providers registered in that order; what each of
        them answers is a parameter. */
    constructor(browserProvider: Provider, webContentsProvider: Provider, pluginProvider: Provider)
      ensures Valid()
      ensures resources == [] && groupMap == map[] && metricsMap == {}
      ensures currentByteCountMap == map[] && displayedNetworkUsageMap == map[]
      ensures supportsNetworkUsage == {} && !isUpdating
      ensures providers == [browserProvider, webContentsProvider, pluginProvider]
    {
      resources := [];
      groupMap := map[];
      metricsMap := {};
      currentByteCountMap := map[];
      displayedNetworkUsageMap := map[];
      supportsNetworkUsage := {};
      isUpdating := false;
      providers := [browserProvider];
      providers := providers + [webContentsProvider];
      providers := providers + [pluginProvider];
      order := [];
    }

    method AddResourceProvider(provider: Provider)
      modifies this`providers
      ensures providers == old(providers) + [provider]
    {
      providers := providers + [provider];
    }

    /** Erases the first occurrence of a registered provider. */
    method RemoveResourceProvider(provider: Provider)
      requires provider in providers
      modifies this`providers
      ensures exists i ::
                0 <= i < |old(providers)| && old(providers)[i] == provider
                && provider !in old(providers)[..i] && providers == old(providers)[..i] + old(providers)[i + 1..]
    {
      var i := FindIndex(providers, provider);
      providers := providers[..i] + providers[i + 1..];
    }

    method StartUpdating()
      requires !isUpdating
      modifies this`isUpdating
      ensures isUpdating
    {
      isUpdating := true;
    }

    method StopUpdating()
      requires isUpdating
      modifies this`isUpdating
      ensures !isUpdating
    {
      isUpdating := false;
    }

    /** Adds a row; `row` is where it lands, the row the table observer
        should be told. The source reports the one above it
        (NotifiedRowAsWrittenIsOffByOne). */
    method AddResource(r: Resource) returns (row: nat)
      requires Valid() && r !in resources
      modifies this`resources, this`groupMap, this`metricsMap, this`order
      ensures Valid()
      ensures resources == InsertInGroup(old(resources), r)
      ensures row == AddedRow(old(resources), r) && resources[row] == r
      ensures r.process in old(groupMap) ==> groupMap == old(groupMap)[r.process := old(groupMap)[r.process] + [r]]
      ensures r.process !in old(groupMap) ==> groupMap == old(groupMap)[r.process := [r]]
    {
      ghost var order';
      var groupMap', resources';
      order', groupMap', resources', row := InsertIntoLayout(order, groupMap, resources, r);
      order := order';
      groupMap := groupMap';
      resources := resources';
      metricsMap := metricsMap + {r.process};
    }

    /** Removes a row; `row` is where it was, the index the table observer
        is told about. */
    method RemoveResource(r: Resource) returns (row: nat)
      requires Valid() && r in resources
      modifies this`resources, this`groupMap, this`metricsMap, this`order
      modifies this`currentByteCountMap, this`displayedNetworkUsageMap
      ensures Valid()
      ensures row < |old(resources)| && old(resources)[row] == r
      ensures resources == old(resources)[..row] + old(resources)[row + 1..]
      ensures r !in resources
      ensures r.process in old(groupMap)
      ensures old(groupMap)[r.process] == [r] ==> groupMap == old(groupMap) - {r.process}
      ensures old(groupMap)[r.process] != [r] ==>
        r.process in groupMap && r !in groupMap[r.process]
        && groupMap == old(groupMap)[r.process := groupMap[r.process]]
      ensures currentByteCountMap == old(currentByteCountMap) - {r}
      ensures displayedNetworkUsageMap == old(displayedNetworkUsageMap) - {r}
    {
      var p := r.process;
      ghost var order';
      var groupMap';
      order', groupMap', row := RemoveFromLayout(order, groupMap, resources, r);
      if p !in groupMap' {
        metricsMap := metricsMap - {p};
      }
      order := order';
      groupMap := groupMap';
      resources := resources[..row] + resources[row + 1..];
      currentByteCountMap := currentByteCountMap - {r};
      displayedNetworkUsageMap := displayedNetworkUsageMap - {r};
    }

    /** The rows of the group of the row at `item`, as (start, length). */
    method GetGroupRangeForItem(item: nat) returns (start: nat, length: nat)
      requires Valid() && item < |resources|
      ensures resources[item].process in groupMap
      ensures length == |groupMap[resources[item].process]|
      ensures start <= item < start + length <= |resources|
      ensures resources[start..start + length] == groupMap[resources[item].process]
      ensures length == 1 ==> start == item
    {
      ghost var s := GroupBlock(order, groupMap, resources, item);
      var group := groupMap[resources[item].process];
      if |group| == 1 {
        start := item;
        length := 1;
      } else {
        start := FindIndex(resources, group[0]);
        assert resources[s] == group[0];
        length := |group|;
      }
    }

    /** Empties the model when it has rows; with no rows it changes
        nothing (the byte counters included). */
    method Clear()
      requires Valid()
      modifies this`resources, this`groupMap, this`metricsMap, this`order
      modifies this`currentByteCountMap, this`displayedNetworkUsageMap
      ensures Valid()
      ensures |old(resources)| > 0 ==>
        resources == [] && groupMap == map[] && metricsMap == {}
        && currentByteCountMap == map[] && displayedNetworkUsageMap == map[]
      ensures |old(resources)| == 0 ==>
        resources == [] && groupMap == old(groupMap) && metricsMap == old(metricsMap)
        && currentByteCountMap == old(currentByteCountMap)
        && displayedNetworkUsageMap == old(displayedNetworkUsageMap)
    {
      if |resources| > 0 {
        resources := [];
        groupMap := map[];
        metricsMap := {};
        order := [];
        currentByteCountMap := map[];
        displayedNetworkUsageMap := map[];
      }
    }

    /** Turns the byte counts of the period into displayed usage and starts
        a new period. */
    method Refresh()
      modifies this`currentByteCountMap, this`displayedNetworkUsageMap
      ensures displayedNetworkUsageMap
        == map r | r in old(currentByteCountMap) :: DisplayedUsage(old(currentByteCountMap)[r])
      ensures currentByteCountMap == map r | r in old(currentByteCountMap) :: 0
    {
      ghost var counts := currentByteCountMap;
      displayedNetworkUsageMap := map[];
      var pending := currentByteCountMap.Keys;
      while pending != {}
        invariant pending <= counts.Keys
        invariant currentByteCountMap.Keys == counts.Keys
        invariant forall r :: r in counts ==>
          currentByteCountMap[r] == if r in pending then counts[r] else 0
        invariant displayedNetworkUsageMap.Keys == counts.Keys - pending
        invariant forall r :: r in displayedNetworkUsageMap ==>
          displayedNetworkUsageMap[r] == DisplayedUsage(counts[r])
        decreases |pending|
      {
        var r :| r in pending;
        displayedNetworkUsageMap := displayedNetworkUsageMap[r := DisplayedUsage(currentByteCountMap[r])];
        currentByteCountMap := currentByteCountMap[r := 0];
        pending := pending - {r};
      }
    }

    /** The displayed usage of a resource, 0 when it has none. */
    method GetNetworkUsageForResource(r: Resource) returns (usage: int)
      ensures r !in displayedNetworkUsageMap ==> usage == 0
      ensures r in displayedNetworkUsageMap ==> usage == displayedNetworkUsageMap[r]
    {
      if r !in displayedNetworkUsageMap {
        return 0;
      }
      usage := displayedNetworkUsageMap[r];
    }

    /** Adds the bytes of a finished read to the count of the resource the
        first provider attributes it to. */
    method BytesRead(param: BytesReadParam)
      modifies this`currentByteCountMap, this`supportsNetworkUsage
      ensures var found := FirstProviderResource(providers, KeyOf(param));
        if !isUpdating || param.byteCount == 0 || found.None? then
          currentByteCountMap == old(currentByteCountMap)
          && supportsNetworkUsage == old(supportsNetworkUsage)
        else
          supportsNetworkUsage == old(supportsNetworkUsage) + {found.value}
          && currentByteCountMap == old(currentByteCountMap)[found.value :=
               (if found.value in old(currentByteCountMap) then old(currentByteCountMap)[found.value] else 0)
               + param.byteCount]
    {
      if !isUpdating {
        return;
      }
      if param.byteCount == 0 {
        return;
      }
      var resource := LookupResource(providers, KeyOf(param));
      if resource.None? {
        return;
      }
      var res := resource.value;
      supportsNetworkUsage := supportsNetworkUsage + {res};
      if res !in currentByteCountMap {
        currentByteCountMap := currentByteCountMap[res := param.byteCount];
      } else {
        currentByteCountMap := currentByteCountMap[res := currentByteCountMap[res] + param.byteCount];
      }
    }
  }
}
