/**
 * readProcessTreeCpuMs of scripts/bench-gateway-startup.ts, over the parsed rows of `ps`: the CPU
 * time of a process and of everything below it.
 */
module ProcessTree {
  import opened Prelude

  datatype Row = Row(pid: nat, ppid: nat, cpuMs: nat)

  function CpuByPid(rows: seq<Row>): map<nat, nat> {
    if rows == [] then map[]
    else CpuByPid(rows[..|rows| - 1])[rows[|rows| - 1].pid := rows[|rows| - 1].cpuMs]
  }

  /** `childrenByParent.get(pid) ?? []` */
  function Get(children: map<nat, seq<nat>>, pid: nat): seq<nat> {
    if pid in children then children[pid] else []
  }

  function ChildrenByParent(rows: seq<Row>): map<nat, seq<nat>> {
    if rows == [] then map[]
    else
      var before, last := ChildrenByParent(rows[..|rows| - 1]), rows[|rows| - 1];
      before[last.ppid := Get(before, last.ppid) + [last.pid]]
  }

  /** `cpuByPid.get(pid) ?? 0` */
  function CpuOf(cpu: map<nat, nat>, pid: nat): nat {
    if pid in cpu then cpu[pid] else 0
  }

  // ---------------------------------------------------------------- what is to be summed

  ghost predicate IsChild(rows: seq<Row>, parent: nat, child: nat) {
    exists row :: row in rows && row.ppid == parent && row.pid == child
  }

  /** A chain of processes, each a child of the one before. Pid 0 stands for no process. */
  ghost predicate IsChain(rows: seq<Row>, chain: seq<nat>) {
    && |chain| > 0
    && (forall i | 0 <= i < |chain| :: chain[i] != 0)
    && (forall i | 0 <= i < |chain| - 1 :: IsChild(rows, chain[i], chain[i + 1]))
  }

  ghost predicate Below(rows: seq<Row>, root: nat, pid: nat) {
    exists chain :: IsChain(rows, chain) && chain[0] == root && chain[|chain| - 1] == pid
  }

  ghost function Pids(rows: seq<Row>): set<nat> {
    set row | row in rows :: row.pid
  }

  /** The process tree: everything that a chain connects to the root. */
  ghost function Tree(rows: seq<Row>, root: nat): set<nat> {
    set pid | pid in Pids(rows) + {root} && Below(rows, root, pid)
  }

  ghost function Sum(pids: set<nat>, cpu: map<nat, nat>): nat {
    if pids == {} then 0
    else
      var pid :| pid in pids;
      CpuOf(cpu, pid) + Sum(pids - {pid}, cpu)
  }

  lemma {:induction false} SumRemove(pids: set<nat>, pid: nat, cpu: map<nat, nat>)
    requires pid in pids
    ensures Sum(pids, cpu) == CpuOf(cpu, pid) + Sum(pids - {pid}, cpu)
  {
    var first :| first in pids && Sum(pids, cpu) == CpuOf(cpu, first) + Sum(pids - {first}, cpu);
    if first != pid {
      SumRemove(pids - {first}, pid, cpu);
      SumRemove(pids - {pid}, first, cpu);
      assert pids - {first} - {pid} == pids - {pid} - {first};
    }
  }

  lemma {:induction false} SumAdd(pids: set<nat>, pid: nat, cpu: map<nat, nat>)
    requires pid !in pids
    ensures Sum(pids + {pid}, cpu) == Sum(pids, cpu) + CpuOf(cpu, pid)
  {
    SumRemove(pids + {pid}, pid, cpu);
    assert pids + {pid} - {pid} == pids;
  }

  // ---------------------------------------------------------------- the walk

  /** A set of processes that with a process holds its children. */
  ghost predicate Closed(children: map<nat, seq<nat>>, pids: set<nat>) {
    forall pid, child | pid in pids && child in Get(children, pid) && child != 0 :: child in pids
  }

  /** Every child of a visited process is visited or waits on the stack. */
  ghost predicate Frontier(children: map<nat, seq<nat>>, visited: set<nat>, stack: seq<nat>) {
    forall pid, child | pid in visited && child in Get(children, pid) && child != 0 :: child in visited || child in stack
  }

  lemma VisitKeepsFrontier(children: map<nat, seq<nat>>, visited: set<nat>, stack: seq<nat>, pid: nat)
    requires Frontier(children, visited, stack + [pid])
    ensures pid == 0 || pid in visited ==> Frontier(children, visited, stack)
    ensures Frontier(children, visited + {pid}, stack + Get(children, pid))
  {
  }

  method Push(stack: seq<nat>, children: seq<nat>) returns (after: seq<nat>)
    ensures after == stack + children
  {
    after := stack;
    for i := 0 to |children|
      invariant after == stack + children[..i]
    {
      after := after + [children[i]];
    }
  }

  lemma {:induction false} SubsetSize(a: set<nat>, b: set<nat>)
    requires a <= b
    ensures |a| <= |b|
  {
    if a != {} {
      var x :| x in a;
      SubsetSize(a - {x}, b - {x});
    }
  }

  lemma SmallerSet(a: set<nat>, b: set<nat>)
    requires a < b
    ensures |a| < |b|
  {
    var x :| x in b && x !in a;
    assert a <= b - {x};
    SubsetSize(a, b - {x});
  }

  lemma FewerLeft(tree: set<nat>, visited: set<nat>, pid: nat)
    requires pid in tree && pid !in visited
    ensures |tree - (visited + {pid})| < |tree - visited|
  {
    assert pid in tree - visited;
    SmallerSet(tree - (visited + {pid}), tree - visited);
  }

  /** What is visited or waits belongs to the tree, the root among it, and no child has been missed. */
  ghost predicate Walking(children: map<nat, seq<nat>>, tree: set<nat>, root: nat, visited: set<nat>, stack: seq<nat>) {
    && visited <= tree && (forall pid | pid in stack && pid != 0 :: pid in tree)
    && (root in visited || root in stack)
    && Frontier(children, visited, stack)
  }

  lemma PopKeepsWalking(children: map<nat, seq<nat>>, tree: set<nat>, root: nat, visited: set<nat>, stack: seq<nat>, pid: nat)
    requires root != 0 && Closed(children, tree) && Walking(children, tree, root, visited, stack + [pid])
    ensures pid == 0 || pid in visited ==> Walking(children, tree, root, visited, stack)
    ensures pid != 0 ==> pid in tree && Walking(children, tree, root, visited + {pid}, stack + Get(children, pid))
  {
    VisitKeepsFrontier(children, visited, stack, pid);
    assert pid in stack + [pid];
    assert forall other | other in stack :: other in stack + [pid];
  }

  /** The walk with its stack: it sums over the smallest closed set that holds the root. */
  method WalkTree(rootPid: nat, childrenByParent: map<nat, seq<nat>>, cpuByPid: map<nat, nat>, ghost tree: set<nat>)
    returns (totalCpuMs: nat, ghost seen: set<nat>)
    requires rootPid != 0 && rootPid in tree && Closed(childrenByParent, tree)
    ensures rootPid in seen && seen <= tree && Closed(childrenByParent, seen)
    ensures totalCpuMs == Sum(seen, cpuByPid)
  {
    totalCpuMs := 0;
    var visited: set<nat> := {};
    var stack := [rootPid];
    while |stack| > 0
      invariant Walking(childrenByParent, tree, rootPid, visited, stack)
      invariant totalCpuMs == Sum(visited, cpuByPid)
      decreases |tree - visited|, |stack|
    {
      var pid := stack[|stack| - 1];
      ghost var before := stack;
      stack := stack[..|stack| - 1];
      assert before == stack + [pid];
      PopKeepsWalking(childrenByParent, tree, rootPid, visited, stack, pid);
      if pid == 0 || pid in visited {
        continue;
      }
      SumAdd(visited, pid, cpuByPid);
      FewerLeft(tree, visited, pid);
      visited := visited + {pid};
      totalCpuMs := totalCpuMs + CpuOf(cpuByPid, pid);
      stack := Push(stack, Get(childrenByParent, pid));
    }
    seen := visited;
  }

  /** The maps know exactly the processes and the child relation of the rows. */
  lemma {:induction false} MapsMeanRows(rows: seq<Row>)
    ensures CpuByPid(rows).Keys == Pids(rows)
    ensures forall parent, child :: child in Get(ChildrenByParent(rows), parent) <==> IsChild(rows, parent, child)
  {
    if rows == [] {
    } else {
      var before, last := rows[..|rows| - 1], rows[|rows| - 1];
      MapsMeanRows(before);
      assert rows == before + [last];
      assert last in rows;
      assert Pids(rows) == Pids(before) + {last.pid};
      forall parent, child
        ensures child in Get(ChildrenByParent(rows), parent) <==> IsChild(rows, parent, child)
      {
        assert IsChild(rows, parent, child) <==> IsChild(before, parent, child) || (last.ppid == parent && last.pid == child) by {
          if IsChild(before, parent, child) {
            var row :| row in before && row.ppid == parent && row.pid == child;
            assert row in rows;
          }
        }
        assert child in Get(ChildrenByParent(before), parent) <==> IsChild(before, parent, child);
      }
    }
  }

  lemma RootIsBelow(rows: seq<Row>, root: nat)
    requires root != 0
    ensures root in Tree(rows, root)
  {
    assert IsChain(rows, [root]);
  }

  lemma ChildIsBelow(rows: seq<Row>, root: nat, pid: nat, child: nat)
    requires pid in Tree(rows, root) && IsChild(rows, pid, child) && child != 0
    ensures child in Tree(rows, root)
  {
    var chain :| IsChain(rows, chain) && chain[0] == root && chain[|chain| - 1] == pid;
    var longer := chain + [child];
    assert forall i | 0 <= i < |longer| - 1 :: IsChild(rows, longer[i], longer[i + 1]);
    assert IsChain(rows, longer) && longer[0] == root && longer[|longer| - 1] == child;
    var row :| row in rows && row.ppid == pid && row.pid == child;
    assert child in Pids(rows);
  }

  lemma TreeIsClosed(rows: seq<Row>, root: nat)
    ensures Closed(ChildrenByParent(rows), Tree(rows, root))
  {
    MapsMeanRows(rows);
    forall pid, child | pid in Tree(rows, root) && child in Get(ChildrenByParent(rows), pid) && child != 0
      ensures child in Tree(rows, root)
    {
      ChildIsBelow(rows, root, pid, child);
    }
  }

  lemma {:induction false} ChainStaysInside(rows: seq<Row>, chain: seq<nat>, closed: set<nat>)
    requires IsChain(rows, chain) && chain[0] in closed
    requires forall pid, child | pid in closed && IsChild(rows, pid, child) && child != 0 :: child in closed
    ensures chain[|chain| - 1] in closed
    decreases |chain|
  {
    if |chain| > 1 {
      assert IsChild(rows, chain[0], chain[1]);
      var tail := chain[1..];
      forall i | 0 <= i < |tail| - 1 ensures IsChild(rows, tail[i], tail[i + 1]) {
        assert IsChild(rows, chain[i + 1], chain[i + 1 + 1]);
      }
      ChainStaysInside(rows, tail, closed);
    }
  }

  /** A set with the root that is closed under children holds the whole tree. */
  lemma ClosedHoldsTree(rows: seq<Row>, root: nat, closed: set<nat>)
    requires root in closed && Closed(ChildrenByParent(rows), closed)
    ensures Tree(rows, root) <= closed
  {
    MapsMeanRows(rows);
    forall pid | pid in Tree(rows, root) ensures pid in closed {
      var chain :| IsChain(rows, chain) && chain[0] == root && chain[|chain| - 1] == pid;
      ChainStaysInside(rows, chain, closed);
    }
  }

  // ---------------------------------------------------------------- the recorded time, told from the rows

  /** The CPU time that the rows record for these processes; of several rows of one process the last one counts. */
  ghost function Recorded(rows: seq<Row>, pids: set<nat>): nat {
    if rows == [] then 0
    else
      var last := rows[|rows| - 1];
      (if last.pid in pids then last.cpuMs else 0) + Recorded(rows[..|rows| - 1], pids - {last.pid})
  }

  /** Of several rows of one process the last one is recorded. */
  lemma {:induction false} LastRowCounts(rows: seq<Row>, k: nat)
    requires k < |rows| && forall j | k < j < |rows| :: rows[j].pid != rows[k].pid
    ensures rows[k].pid in CpuByPid(rows) && CpuByPid(rows)[rows[k].pid] == rows[k].cpuMs
  {
    if k < |rows| - 1 {
      LastRowCounts(rows[..|rows| - 1], k);
    }
  }

  lemma {:induction false} SumOfNothing(pids: set<nat>)
    ensures Sum(pids, map[]) == 0
  {
    if pids != {} {
      var pid :| pid in pids;
      SumRemove(pids, pid, map[]);
      SumOfNothing(pids - {pid});
    }
  }

  lemma {:induction false} SumIgnoresOthers(pids: set<nat>, cpu: map<nat, nat>, pid: nat, cpuMs: nat)
    requires pid !in pids
    ensures Sum(pids, cpu[pid := cpuMs]) == Sum(pids, cpu)
  {
    if pids != {} {
      var first :| first in pids;
      SumRemove(pids, first, cpu);
      SumRemove(pids, first, cpu[pid := cpuMs]);
      SumIgnoresOthers(pids - {first}, cpu, pid, cpuMs);
    }
  }

  /** Summing over the map that the rows were collected in gives what the rows record. */
  lemma {:induction false} SumIsRecorded(rows: seq<Row>, pids: set<nat>)
    ensures Sum(pids, CpuByPid(rows)) == Recorded(rows, pids)
  {
    if rows == [] {
      SumOfNothing(pids);
    } else {
      var before, last := rows[..|rows| - 1], rows[|rows| - 1];
      SumIgnoresOthers(pids - {last.pid}, CpuByPid(before), last.pid, last.cpuMs);
      SumIsRecorded(before, pids - {last.pid});
      if last.pid in pids {
        SumRemove(pids, last.pid, CpuByPid(rows));
      } else {
        assert pids - {last.pid} == pids;
      }
    }
  }

  /** No process has two rows. */
  ghost predicate DistinctPids(rows: seq<Row>) {
    forall i, j | 0 <= i < j < |rows| :: rows[i].pid != rows[j].pid
  }

  /** The rows of these processes, added up. */
  ghost function TotalOfRows(rows: seq<Row>, pids: set<nat>): nat {
    if rows == [] then 0
    else (if rows[0].pid in pids then rows[0].cpuMs else 0) + TotalOfRows(rows[1..], pids)
  }

  lemma {:induction false} TotalOfOneMore(rows: seq<Row>, last: Row, pids: set<nat>)
    ensures TotalOfRows(rows + [last], pids) == TotalOfRows(rows, pids) + (if last.pid in pids then last.cpuMs else 0)
  {
    if rows == [] {
    } else {
      assert (rows + [last])[1..] == rows[1..] + [last];
      TotalOfOneMore(rows[1..], last, pids);
    }
  }

  lemma {:induction false} TotalIgnoresAbsent(rows: seq<Row>, pids: set<nat>, pid: nat)
    requires forall i | 0 <= i < |rows| :: rows[i].pid != pid
    ensures TotalOfRows(rows, pids - {pid}) == TotalOfRows(rows, pids)
  {
    if rows == [] {
    } else {
      TotalIgnoresAbsent(rows[1..], pids, pid);
    }
  }

  /** When no process has two rows, what is recorded is the plain sum over the rows of these processes. */
  lemma {:induction false} DistinctRowsAddUp(rows: seq<Row>, pids: set<nat>)
    requires DistinctPids(rows)
    ensures Recorded(rows, pids) == TotalOfRows(rows, pids)
  {
    if rows == [] {
    } else {
      var before, last := rows[..|rows| - 1], rows[|rows| - 1];
      assert rows == before + [last];
      DistinctRowsAddUp(before, pids - {last.pid});
      TotalIgnoresAbsent(before, pids, last.pid);
      TotalOfOneMore(before, last, pids);
    }
  }

  method ReadProcessTreeCpuMs(rootPid: nat, windows: bool, rows: seq<Row>) returns (totalCpuMs: Option<nat>)
    ensures totalCpuMs == if rootPid == 0 || windows || rootPid !in Pids(rows) then None
                          else Some(Recorded(rows, Tree(rows, rootPid)))
    ensures totalCpuMs.Some? && DistinctPids(rows) ==> totalCpuMs.value == TotalOfRows(rows, Tree(rows, rootPid))
  {
    if rootPid == 0 || windows {
      return None;
    }
    var childrenByParent: map<nat, seq<nat>>, cpuByPid: map<nat, nat> := map[], map[];
    for i := 0 to |rows|
      invariant childrenByParent == ChildrenByParent(rows[..i]) && cpuByPid == CpuByPid(rows[..i])
    {
      var row := rows[i];
      assert rows[..i + 1][..i] == rows[..i];
      cpuByPid := cpuByPid[row.pid := row.cpuMs];
      childrenByParent := childrenByParent[row.ppid := Get(childrenByParent, row.ppid) + [row.pid]];
    }
    assert rows[..|rows|] == rows;
    MapsMeanRows(rows);
    if rootPid !in cpuByPid {
      return None;
    }
    var total;
    ghost var seen;
    total, seen := WalkTree(rootPid, childrenByParent, cpuByPid, Tree(rows, rootPid)) by {
      RootIsBelow(rows, rootPid);
      TreeIsClosed(rows, rootPid);
    }
    ClosedHoldsTree(rows, rootPid, seen);
    assert seen == Tree(rows, rootPid);
    SumIsRecorded(rows, seen);
    if DistinctPids(rows) {
      DistinctRowsAddUp(rows, seen);
    }
    totalCpuMs := Some(total);
  }
}
