/** The registry of the C++ CBuild: tasks with their required tasks and
    executed flags, toolchains with theirs, command-line keywords, output
    generators and the rebuild arguments. A task or toolchain object is
    represented by its id (and a task by its list of required tasks); what
    its `call` does is recorded as the list of tasks, or toolchains, called. */
module Register {
  import opened Bytes
  import opened Wrappers
  import opened LibMap
  import opened Seqs

  /** No element twice. */
  ghost predicate NoDup<T>(xs: seq<T>) {
    forall i, j :: 0 <= i < j < |xs| ==> xs[i] != xs[j]
  }

  /** The rank of a name; names without one rank 0. */
  function Rank(rank: map<Bytes, nat>, n: Bytes): nat {
    if n in rank then rank[n] else 0
  }

  /** Every required task ranks below any task that requires it: the
      requirements are acyclic. */
  ghost predicate Ranked(tasks: seq<Entry<Bytes, seq<Bytes>>>, rank: map<Bytes, nat>) {
    forall i :: 0 <= i < |tasks| ==>
      forall j :: 0 <= j < |tasks[i].data| ==> Rank(rank, tasks[i].data[j]) < Rank(rank, tasks[i].key)
  }

  /** Each task called from position `lo` on was called after every
      registered task it requires. */
  ghost predicate DepsFirstFrom(tasks: seq<Entry<Bytes, seq<Bytes>>>, calls: seq<Bytes>, lo: nat) {
    forall i :: lo <= i < |calls| ==> DepsBefore(tasks, calls[..i], calls[i])
  }

  /** Every registered task that task `n` requires is in `done`. */
  ghost predicate DepsBefore(tasks: seq<Entry<Bytes, seq<Bytes>>>, done: seq<Bytes>, n: Bytes) {
    forall k :: 0 <= k < |tasks| && tasks[k].key == n ==> AllCalled(tasks, tasks[k].data, done)
  }

  /** Every registered name of `req` is in `done`. */
  ghost predicate AllCalled(tasks: seq<Entry<Bytes, seq<Bytes>>>, req: seq<Bytes>, done: seq<Bytes>) {
    forall j :: 0 <= j < |req| && FirstIndex(tasks, req[j]).Some? ==> req[j] in done
  }

  /** Two runs of calls, the second extending the first, form one. */
  lemma DepsFirstJoin(tasks: seq<Entry<Bytes, seq<Bytes>>>, a: seq<Bytes>, b: seq<Bytes>, lo: nat)
    requires lo <= |a| && a <= b && DepsFirstFrom(tasks, a, lo) && DepsFirstFrom(tasks, b, |a|)
    ensures DepsFirstFrom(tasks, b, lo)
  {
    forall i | lo <= i < |a|
      ensures DepsBefore(tasks, b[..i], b[i])
    {
      assert b[..i] == a[..i];
    }
  }

  /** A call made once its requirements have run extends the run. */
  lemma DepsFirstSnoc(tasks: seq<Entry<Bytes, seq<Bytes>>>, calls: seq<Bytes>, lo: nat, n: Bytes)
    requires lo <= |calls| && DepsFirstFrom(tasks, calls, lo) && DepsBefore(tasks, calls, n)
    ensures DepsFirstFrom(tasks, calls + [n], lo)
  {
    var c := calls + [n];
    forall i | lo <= i < |c|
      ensures DepsBefore(tasks, c[..i], c[i])
    {
      if i < |calls| {
        assert c[..i] == calls[..i];
      } else {
        assert c[..i] == calls;
      }
    }
  }

  /** The requirement loop's step: earlier requirements stay called. */
  lemma AllCalledStep(tasks: seq<Entry<Bytes, seq<Bytes>>>, req: seq<Bytes>, i: nat, before: seq<Bytes>, after: seq<Bytes>)
    requires i < |req| && AllCalled(tasks, req[..i], before) && before <= after
    requires FirstIndex(tasks, req[i]).Some? ==> req[i] in after
    ensures AllCalled(tasks, req[..i + 1], after)
  {
    var r := req[..i + 1];
    forall j | 0 <= j < |r| && FirstIndex(tasks, r[j]).Some?
      ensures r[j] in after
    {
      if j < i {
        assert req[..i][j] == req[j];
        assert req[j] in before;
      }
    }
  }

  /** With unique names, the requirements of the entry are those of its
      name. */
  lemma DepsBeforeOf(tasks: seq<Entry<Bytes, seq<Bytes>>>, k: nat, done: seq<Bytes>)
    requires UniqueKeys(tasks) && k < |tasks| && AllCalled(tasks, tasks[k].data, done)
    ensures DepsBefore(tasks, done, tasks[k].key)
  {
    forall k' | 0 <= k' < |tasks| && tasks[k'].key == tasks[k].key
      ensures AllCalled(tasks, tasks[k'].data, done)
    {
      UniqueKeysAt(tasks, k, k');
    }
  }

  /** The tasks `CallTask(n)` runs, in the order they run, once the tasks
      in `done` have run: a registered task not in `done` first runs what
      each of its requirements runs, in list order, then itself; a missing
      or already-run name runs nothing. */
  ghost function TaskRun(tasks: seq<Entry<Bytes, seq<Bytes>>>, rank: map<Bytes, nat>, done: seq<Bytes>, n: Bytes): seq<Bytes>
    requires Ranked(tasks, rank)
    decreases Rank(rank, n), 1, 0
  {
    match FirstIndex(tasks, n)
    case None => []
    case Some(k) =>
      if n in done then []
      else ReqRun(tasks, rank, done, tasks[k].data, 0, Rank(rank, n)) + [n]
  }

  /** What the requirements `req[i..]` run, one after the other, each
      seeing the tasks the earlier ones ran. */
  ghost function ReqRun(tasks: seq<Entry<Bytes, seq<Bytes>>>, rank: map<Bytes, nat>, done: seq<Bytes>,
                        req: seq<Bytes>, i: nat, bound: nat): seq<Bytes>
    requires Ranked(tasks, rank) && i <= |req|
    requires forall j :: 0 <= j < |req| ==> Rank(rank, req[j]) < bound
    decreases bound, 0, |req| - i
  {
    if i == |req| then []
    else
      var first := TaskRun(tasks, rank, done, req[i]);
      first + ReqRun(tasks, rank, done + first, req, i + 1, bound)
  }

  /** Two runs without repeats, the second avoiding the first, join into one. */
  lemma NoDupJoin(a: seq<Bytes>, b: seq<Bytes>)
    requires NoDup(a) && NoDup(b) && forall m :: m in b ==> m !in a
    ensures NoDup(a + b)
  {
    forall i, j | 0 <= i < j < |a + b|
      ensures (a + b)[i] != (a + b)[j]
    {
      if i < |a| && |a| <= j {
        assert (a + b)[j] == b[j - |a|] && (a + b)[j] in b;
      }
    }
  }

  /** `CallTask(n)` runs only registered tasks that had not run, none twice,
      none ranked above `n`; it runs something exactly when `n` is
      registered and has not run, and then `n` runs last. */
  lemma {:induction false} TaskRunFresh(tasks: seq<Entry<Bytes, seq<Bytes>>>, rank: map<Bytes, nat>, done: seq<Bytes>, n: Bytes)
    requires Ranked(tasks, rank)
    ensures var r := TaskRun(tasks, rank, done, n);
      NoDup(r) && (r == [] <==> FirstIndex(tasks, n).None? || n in done)
      && (r != [] ==> r[|r| - 1] == n)
      && forall m :: m in r ==> m !in done && FirstIndex(tasks, m).Some? && Rank(rank, m) <= Rank(rank, n)
    decreases Rank(rank, n), 1, 0
  {
    match FirstIndex(tasks, n)
    case None =>
    case Some(k) =>
      if n !in done {
        var pre := ReqRun(tasks, rank, done, tasks[k].data, 0, Rank(rank, n));
        ReqRunFresh(tasks, rank, done, tasks[k].data, 0, Rank(rank, n));
        NoDupJoin(pre, [n]);
      }
  }

  /** The requirements together run only registered tasks that had not
      run, none twice, each ranked below `bound`. */
  lemma {:induction false} ReqRunFresh(tasks: seq<Entry<Bytes, seq<Bytes>>>, rank: map<Bytes, nat>, done: seq<Bytes>,
                                        req: seq<Bytes>, i: nat, bound: nat)
    requires Ranked(tasks, rank) && i <= |req|
    requires forall j :: 0 <= j < |req| ==> Rank(rank, req[j]) < bound
    ensures var r := ReqRun(tasks, rank, done, req, i, bound);
      NoDup(r) && forall m :: m in r ==> m !in done && FirstIndex(tasks, m).Some? && Rank(rank, m) < bound
    decreases bound, 0, |req| - i
  {
    if i < |req| {
      var first := TaskRun(tasks, rank, done, req[i]);
      var rest := ReqRun(tasks, rank, done + first, req, i + 1, bound);
      TaskRunFresh(tasks, rank, done, req[i]);
      ReqRunFresh(tasks, rank, done + first, req, i + 1, bound);
      NoDupJoin(first, rest);
    }
  }

  /** The requirement loop's step: one more requirement run moves its
      tasks from the runs still to come to the runs made. */
  lemma ReqRunStep(tasks: seq<Entry<Bytes, seq<Bytes>>>, rank: map<Bytes, nat>, c0: seq<Bytes>, before: seq<Bytes>,
                   after: seq<Bytes>, req: seq<Bytes>, i: nat, bound: nat)
    requires Ranked(tasks, rank) && i < |req|
    requires forall j :: 0 <= j < |req| ==> Rank(rank, req[j]) < bound
    requires c0 + ReqRun(tasks, rank, c0, req, 0, bound) == before + ReqRun(tasks, rank, before, req, i, bound)
    requires after == before + TaskRun(tasks, rank, before, req[i])
    ensures c0 + ReqRun(tasks, rank, c0, req, 0, bound) == after + ReqRun(tasks, rank, after, req, i + 1, bound)
  {
  }

  /** Between two well-formed task registries whose calls extend by
      `extra`, the flags that turned on are those of `extra`. */
  lemma FlagsOfRun(tasks: seq<Entry<Bytes, seq<Bytes>>>, e0: map<Bytes, bool>, c0: seq<Bytes>,
                   e1: map<Bytes, bool>, c1: seq<Bytes>, extra: seq<Bytes>)
    requires TaskState(tasks, e0, c0) && TaskState(tasks, e1, c1) && c1 == c0 + extra
    ensures e1.Keys == e0.Keys
    ensures forall m :: m in e1 ==> (e1[m] <==> e0[m] || m in extra)
  {
    forall m | m in e1
      ensures e1[m] <==> e0[m] || m in extra
    {
      assert m in c1 <==> m in c0 || m in extra;
    }
  }

  /** The toolchains of `ids` whose flag is still false, in order. */
  function Pending(ids: seq<Bytes>, executed: map<Bytes, bool>): (r: seq<Bytes>)
    ensures forall n :: n in r ==> n in ids && n in executed && !executed[n]
    decreases |ids|
  {
    if ids == [] then []
    else
      var last := ids[|ids| - 1];
      Pending(ids[..|ids| - 1], executed) + (if last in executed && !executed[last] then [last] else [])
  }

  lemma PendingStep(ids: seq<Bytes>, i: nat, executed: map<Bytes, bool>)
    requires i < |ids|
    ensures Pending(ids[..i + 1], executed)
      == Pending(ids[..i], executed) + (if ids[i] in executed && !executed[ids[i]] then [ids[i]] else [])
  {
    assert ids[..i + 1][..i] == ids[..i];
  }

  /** `executed` with the flags of `ids` set. */
  function MarkAll(executed: map<Bytes, bool>, ids: seq<Bytes>): map<Bytes, bool>
    decreases |ids|
  {
    if ids == [] then executed else MarkAll(executed, ids[..|ids| - 1])[ids[|ids| - 1] := true]
  }

  /** Before position `i` of a duplicate-free list is marked, the flag of
      the toolchain at `i` is still the old one. */
  lemma {:induction false} MarkAllStep(executed: map<Bytes, bool>, ids: seq<Bytes>, i: nat)
    requires NoDup(ids) && i < |ids| && forall n :: n in ids ==> n in executed
    ensures ids[i] in MarkAll(executed, ids[..i]) && MarkAll(executed, ids[..i])[ids[i]] == executed[ids[i]]
    ensures MarkAll(executed, ids[..i + 1]) == MarkAll(executed, ids[..i])[ids[i] := true]
  {
    assert ids[..i + 1][..i] == ids[..i];
    MarkAllKeeps(executed, ids[..i], ids[i]);
    assert ids[i] in ids;
  }

  lemma {:induction false} MarkAllKeeps(executed: map<Bytes, bool>, ids: seq<Bytes>, n: Bytes)
    requires n !in ids && n in executed
    ensures n in MarkAll(executed, ids) && MarkAll(executed, ids)[n] == executed[n]
    decreases |ids|
  {
    if ids != [] {
      assert ids[..|ids| - 1] + [ids[|ids| - 1]] == ids;
      MarkAllKeeps(executed, ids[..|ids| - 1], n);
    }
  }

  /** Marking keeps the set of names and sets every flag of `ids`. */
  lemma {:induction false} MarkAllFlags(executed: map<Bytes, bool>, ids: seq<Bytes>)
    requires forall n :: n in ids ==> n in executed
    ensures MarkAll(executed, ids).Keys == executed.Keys
    ensures forall n :: n in ids ==> MarkAll(executed, ids)[n]
    decreases |ids|
  {
    if ids != [] {
      var init := ids[..|ids| - 1];
      assert forall n :: n in init ==> n in ids;
      MarkAllFlags(executed, init);
      assert forall n :: n in ids ==> n in init || n == ids[|ids| - 1];
    }
  }

  /** Each argument followed by a space. */
  function Spaced(xs: seq<Bytes>): Bytes
    decreases |xs|
  {
    if xs == [] then [] else xs[0] + " " + Spaced(xs[1..])
  }

  lemma {:induction false} SpacedSnoc(xs: seq<Bytes>, x: Bytes)
    ensures Spaced(xs + [x]) == Spaced(xs) + x + " "
    decreases |xs|
  {
    if xs == [] {
      assert [] + [x] == [x];
      assert [x][1..] == [];
    } else {
      assert (xs + [x])[1..] == xs[1..] + [x];
      SpacedSnoc(xs[1..], x);
    }
  }

  /** `GetRebuildArgs`: the compile arguments inside quotes, the link
      arguments inside quotes, then the executable name. */
  function RebuildArgs(cargs: seq<Bytes>, largs: seq<Bytes>, name: Bytes): Bytes {
    " \"" + Spaced(cargs) + " \" \" " + Spaced(largs) + " \" " + name
  }

  /** The number of bytes before the first space. */
  function UntilSpace(s: Bytes): (k: nat)
    ensures k <= |s|
    ensures forall i :: 0 <= i < k ==> s[i] != ' '
    ensures k < |s| ==> s[k] == ' '
  {
    if s == [] || s[0] == ' ' then 0 else 1 + UntilSpace(s[1..])
  }

  /** Splitting at spaces, as a shell reads the quoted argument lists. */
  function Words(s: Bytes): seq<Bytes>
    decreases |s|
  {
    if s == [] then []
    else
      var k := UntilSpace(s);
      if k == |s| then [s] else [s[..k]] + Words(s[k + 1..])
  }

  /** Arguments without spaces come back from the packed list. */
  lemma {:induction false} WordsSpaced(xs: seq<Bytes>)
    requires forall i :: 0 <= i < |xs| ==> ' ' !in xs[i]
    ensures Words(Spaced(xs)) == xs
    decreases |xs|
  {
    if xs != [] {
      var x, rest := xs[0], Spaced(xs[1..]);
      var s := x + " " + rest;
      assert Spaced(xs) == s;
      assert ' ' !in x by {
        assert 0 < |xs|;
      }
      UntilSpaceOf(x, rest);
      assert s[..|x|] == x && s[|x| + 1..] == rest;
      assert Words(s) == [x] + Words(rest);
      WordsSpaced(xs[1..]);
      assert [x] + xs[1..] == xs;
    }
  }

  lemma {:induction false} UntilSpaceOf(x: Bytes, rest: Bytes)
    requires ' ' !in x
    ensures UntilSpace(x + " " + rest) == |x|
    decreases |x|
  {
    if x != [] {
      assert (x + " " + rest)[1..] == x[1..] + " " + rest;
      assert x[0] in x;
      UntilSpaceOf(x[1..], rest);
    }
  }

  /** An argument holding a space falls apart into two. */
  lemma SpaceSplitsArgument()
    ensures Words(Spaced(["-I a"])) == ["-I", "a"]
  {
    var s := Spaced(["-I a"]);
    assert ["-I a"][1..] == [];
    assert s == "-I a ";
    assert s[1..] == "I a " && s[1..][1..] == " a ";
    assert UntilSpace(" a ") == 0;
    assert UntilSpace(s) == 2;
    assert s[..2] == "-I" && s[3..] == "a ";
    assert "a "[1..] == " " && UntilSpace(" ") == 0;
    assert UntilSpace("a ") == 1;
    assert "a "[..1] == "a" && "a "[2..] == [];
    assert Words("a ") == ["a"];
  }

  /** The keywords and tasks `init` registers. */
  const SystemKeywords: seq<(Bytes, Bytes)> := [
    ("--help", "CBuild_help"), ("--init", "CBuild_init"), ("--version", "CBuild_version"),
    ("--task-list", "CBuild_tasklist"), ("--target-list", "CBuild_toolchainlist"),
    ("--commands-list", "CBuild_cmdlist"), ("--generator-list", "CBuild_generatorlist")]

  /** Task registry: unique names, a flag for each registered task,
      and a task has run, once, exactly when its flag is set. */
  ghost predicate TaskState(tasks: seq<Entry<Bytes, seq<Bytes>>>, executed: map<Bytes, bool>, calls: seq<Bytes>) {
    UniqueKeys(tasks)
    && (forall n :: n in executed <==> FirstIndex(tasks, n).Some?)
    && NoDup(calls) && (forall n :: n in calls <==> n in executed && executed[n])
  }

  /** The toolchain registry: unique ids, a flag for each, and every
      toolchain run by `ToolchainAll` ran once and is flagged. */
  ghost predicate TargetState(targets: seq<Bytes>, executed: map<Bytes, bool>, builds: seq<Bytes>) {
    NoDup(targets) && (forall n :: n in executed <==> n in targets)
    && NoDup(builds) && (forall n :: n in builds ==> n in executed && executed[n])
  }

  /** Registering a new task keeps a task registry well formed. */
  lemma TaskRegistered(tasks: seq<Entry<Bytes, seq<Bytes>>>, executed: map<Bytes, bool>, calls: seq<Bytes>, e: Entry<Bytes, seq<Bytes>>)
    requires TaskState(tasks, executed, calls) && FirstIndex(tasks, e.key).None?
    ensures TaskState(tasks + [e], executed[e.key := false], calls)
  {
    UniqueAfterCheckedPush(tasks, e);
    forall m
      ensures FirstIndex(tasks + [e], m).Some? <==> FirstIndex(tasks, m).Some? || m == e.key
    {
      FirstIndexAppend(tasks, e, m);
    }
  }

  /** Running a task whose flag is false keeps it well formed. */
  lemma TaskRan(tasks: seq<Entry<Bytes, seq<Bytes>>>, executed: map<Bytes, bool>, calls: seq<Bytes>, n: Bytes)
    requires TaskState(tasks, executed, calls) && n in executed && !executed[n]
    ensures TaskState(tasks, executed[n := true], calls + [n])
  {
    assert n !in calls;
  }

  /** Registering a new toolchain keeps the toolchain registry well formed. */
  lemma TargetRegistered(targets: seq<Bytes>, executed: map<Bytes, bool>, builds: seq<Bytes>, id: Bytes)
    requires TargetState(targets, executed, builds) && id !in targets
    ensures TargetState(targets + [id], executed[id := false], builds)
  {
    assert id !in builds;
  }

  /** Setting a toolchain's flag, and running it if its flag was false,
      keep it well formed. */
  lemma TargetRan(targets: seq<Bytes>, executed: map<Bytes, bool>, builds: seq<Bytes>, id: Bytes)
    requires TargetState(targets, executed, builds) && id in targets
    ensures TargetState(targets, executed[id := true], builds)
    ensures !executed[id] ==> TargetState(targets, executed[id := true], builds + [id])
  {
    assert !executed[id] ==> id !in builds;
  }

  class Registry {
    /** `tasks`: name and required task names, in registration order. */
    var tasks: seq<Entry<Bytes, seq<Bytes>>>
    var taskExecuted: map<Bytes, bool>
    /** `targets`: toolchain ids in registration order. */
    var targets: seq<Bytes>
    var targetExecuted: map<Bytes, bool>
    var keywords: seq<Entry<Bytes, Bytes>>
    var generators: seq<Bytes>
    var name: Bytes
    var cargs: seq<Bytes>
    var largs: seq<Bytes>
    /** The tasks whose `call` ran, in the order they ran. */
    var calls: seq<Bytes>
    /** The toolchains `ToolchainAll` ran, in the order they ran. */
    var builds: seq<Bytes>

    /** The executed flags belong to the registered names; a task has run
        exactly when its flag is set, and no task or toolchain ran twice. */
    ghost predicate Valid()
      reads this
    {
      TaskState(tasks, taskExecuted, calls) && TargetState(targets, targetExecuted, builds)
      && UniqueKeys(keywords) && NoDup(generators)
    }

    constructor ()
      ensures Valid()
      ensures tasks == [] && taskExecuted == map[] && targets == [] && targetExecuted == map[]
      ensures keywords == [] && generators == [] && calls == [] && builds == []
      ensures name == "CBuild.run" && cargs == [] && largs == []
    {
      tasks := [];
      taskExecuted := map[];
      targets := [];
      targetExecuted := map[];
      keywords := [];
      generators := [];
      name := "CBuild.run";
      cargs := [];
      largs := [];
      calls := [];
      builds := [];
    }

    /** `RegisterTask`: a new name gets a false flag; a duplicate is
        rejected and nothing changes. */
    method RegisterTask(n: Bytes, required: seq<Bytes>) returns (ok: bool)
      requires Valid()
      modifies this`tasks, this`taskExecuted
      ensures Valid()
      ensures ok <==> FirstIndex(old(tasks), n).None?
      ensures ok ==> tasks == old(tasks) + [Entry(n, required)] && taskExecuted == old(taskExecuted)[n := false]
      ensures !ok ==> tasks == old(tasks) && taskExecuted == old(taskExecuted)
    {
      if FirstIndex(tasks, n).Some? {
        return false;
      }
      TaskRegistered(tasks, taskExecuted, calls, Entry(n, required));
      tasks := tasks + [Entry(n, required)];
      taskExecuted := taskExecuted[n := false];
      ok := true;
    }

    /** `CallTask`, for requirements ranked by `rank`: a registered task
        that has not run calls its required tasks in order, then runs and
        is marked; any other name changes nothing. Only tasks ranked no
        higher than `n` run. */
    method CallTask(n: Bytes, ghost rank: map<Bytes, nat>)
      requires Valid() && Ranked(tasks, rank)
      modifies this`taskExecuted, this`calls
      ensures Valid()
      ensures old(calls) <= calls
      ensures FirstIndex(tasks, n).Some? ==> n in calls
      ensures FirstIndex(tasks, n).None? || n in old(calls) ==> calls == old(calls) && taskExecuted == old(taskExecuted)
      ensures forall i :: |old(calls)| <= i < |calls| ==> Rank(rank, calls[i]) <= Rank(rank, n)
      ensures DepsFirstFrom(tasks, calls, |old(calls)|)
      ensures calls == old(calls) + TaskRun(tasks, rank, old(calls), n)
      ensures taskExecuted.Keys == old(taskExecuted).Keys
      ensures forall m :: m in taskExecuted ==>
                (taskExecuted[m] <==> old(taskExecuted)[m] || m in TaskRun(tasks, rank, old(calls), n))
      decreases Rank(rank, n), 1
    {
      ghost var e0, c0 := taskExecuted, calls;
      ghost var run := TaskRun(tasks, rank, c0, n);
      assert TaskState(tasks, e0, c0);
      if n in taskExecuted && !taskExecuted[n] {
        var k := FirstIndex(tasks, n).value;
        CallRequired(n, k, rank);
        ghost var pre := ReqRun(tasks, rank, c0, tasks[k].data, 0, Rank(rank, n));
        ghost var mid := calls;
        assert mid == c0 + pre;
        assert n !in c0 && run == pre + [n];
        CallTaskFinish(n, k, c0, rank);
        ConcatAssoc(c0, pre, [n]);
      } else {
        assert run == [];
      }
      FlagsOfRun(tasks, e0, c0, taskExecuted, calls, run);
    }

    /** The loop of `CallTask` over the tasks that task `n` requires, in
        list order. */
    method CallRequired(n: Bytes, k: nat, ghost rank: map<Bytes, nat>)
      requires Valid() && Ranked(tasks, rank) && k < |tasks| && tasks[k].key == n
      requires n in taskExecuted && !taskExecuted[n]
      modifies this`taskExecuted, this`calls
      ensures Valid() && old(calls) <= calls && n in taskExecuted && !taskExecuted[n]
      ensures forall j :: |old(calls)| <= j < |calls| ==> Rank(rank, calls[j]) < Rank(rank, n)
      ensures AllCalled(tasks, tasks[k].data, calls)
      ensures DepsFirstFrom(tasks, calls, |old(calls)|)
      ensures calls == old(calls) + ReqRun(tasks, rank, old(calls), tasks[k].data, 0, Rank(rank, n))
      decreases Rank(rank, n), 0
    {
      var req := tasks[k].data;
      ghost var c0 := calls;
      ghost var R := Rank(rank, n);
      for i := 0 to |req|
        invariant Valid() && c0 <= calls && n in taskExecuted && !taskExecuted[n]
        invariant forall j :: |c0| <= j < |calls| ==> Rank(rank, calls[j]) < R
        invariant AllCalled(tasks, req[..i], calls)
        invariant DepsFirstFrom(tasks, calls, |c0|)
        invariant c0 + ReqRun(tasks, rank, c0, req, 0, R) == calls + ReqRun(tasks, rank, calls, req, i, R)
      {
        ghost var before := calls;
        CallTask(req[i], rank);
        AllCalledStep(tasks, req, i, before, calls);
        DepsFirstJoin(tasks, before, calls, |c0|);
        ReqRunStep(tasks, rank, c0, before, calls, req, i, R);
      }
      assert req[..|req|] == req;
    }

    /** The last step of `CallTask`: a task's own `call`, then its flag. */
    method CallTaskFinish(n: Bytes, k: nat, ghost c0: seq<Bytes>, ghost rank: map<Bytes, nat>)
      requires Valid() && k < |tasks| && tasks[k].key == n && c0 <= calls
      requires n in taskExecuted && !taskExecuted[n]
      requires forall j :: |c0| <= j < |calls| ==> Rank(rank, calls[j]) < Rank(rank, n)
      requires AllCalled(tasks, tasks[k].data, calls)
      requires DepsFirstFrom(tasks, calls, |c0|)
      modifies this`taskExecuted, this`calls
      ensures Valid() && calls == old(calls) + [n] && taskExecuted == old(taskExecuted)[n := true]
      ensures forall j :: |c0| <= j < |calls| ==> Rank(rank, calls[j]) <= Rank(rank, n)
      ensures DepsFirstFrom(tasks, calls, |c0|)
    {
      TaskRan(tasks, taskExecuted, calls, n);
      DepsBeforeOf(tasks, k, calls);
      DepsFirstSnoc(tasks, calls, |c0|, n);
      calls := calls + [n];
      taskExecuted := taskExecuted[n := true];
    }

    /** `RegisterTarget`. */
    method RegisterTarget(id: Bytes) returns (ok: bool)
      requires Valid()
      modifies this`targets, this`targetExecuted
      ensures Valid()
      ensures ok <==> id !in old(targets)
      ensures ok ==> targets == old(targets) + [id] && targetExecuted == old(targetExecuted)[id := false]
      ensures !ok ==> targets == old(targets) && targetExecuted == old(targetExecuted)
    {
      if id in targets {
        return false;
      }
      TargetRegistered(targets, targetExecuted, builds, id);
      targets := targets + [id];
      targetExecuted := targetExecuted[id := false];
      ok := true;
    }

    /** `GetToolchain`: without `force`, the first request for a registered
        toolchain gets it and sets its flag, later ones get `None`; with
        `force`, any registered toolchain is returned and no flag changes. */
    method GetToolchain(n: Bytes, force: bool) returns (r: Option<Bytes>)
      requires Valid()
      modifies this`targetExecuted
      ensures Valid()
      ensures !force ==> (r.Some? <==> n in old(targetExecuted) && !old(targetExecuted)[n])
      ensures !force && r.Some? ==> r == Some(n) && targetExecuted == old(targetExecuted)[n := true]
      ensures !force && r.None? ==> targetExecuted == old(targetExecuted)
      ensures force ==> r == (if n in targets then Some(n) else None) && targetExecuted == old(targetExecuted)
    {
      if !force {
        if n in targetExecuted && !targetExecuted[n] {
          TargetRan(targets, targetExecuted, builds, n);
          targetExecuted := targetExecuted[n := true];
          return Some(n);
        }
      } else {
        if n in targets {
          return Some(n);
        }
      }
      return None;
    }

    /** `RegisterKeyword`: registers its task, then maps the key to the
        task's name unless the key is taken. */
    method RegisterKeyword(key: Bytes, task: Bytes, required: seq<Bytes>)
      requires Valid()
      modifies this`tasks, this`taskExecuted, this`keywords
      ensures Valid()
      ensures FirstIndex(old(tasks), task).None? ==> tasks == old(tasks) + [Entry(task, required)]
      ensures FirstIndex(old(tasks), task).Some? ==> tasks == old(tasks)
      ensures keywords == if FirstIndex(old(keywords), key).None? then old(keywords) + [Entry(key, task)] else old(keywords)
    {
      var _ := RegisterTask(task, required);
      if FirstIndex(keywords, key).None? {
        UniqueAfterCheckedPush(keywords, Entry(key, task));
        keywords := keywords + [Entry(key, task)];
      }
    }

    /** `GetKeywordsList`. */
    method GetKeywordsList() returns (r: seq<Entry<Bytes, Bytes>>)
      ensures r == keywords
    {
      r := keywords;
    }

    method SetRebuildName(n: Bytes)
      modifies this`name
      ensures name == n
    {
      name := n;
    }

    method AddLinkArg(arg: Bytes)
      modifies this`largs
      ensures largs == old(largs) + [arg]
    {
      largs := largs + [arg];
    }

    method AddCompileArg(arg: Bytes)
      modifies this`cargs
      ensures cargs == old(cargs) + [arg]
    {
      cargs := cargs + [arg];
    }

    /** `GetRebuildArgs`. */
    method GetRebuildArgs() returns (ret: Bytes)
      ensures ret == RebuildArgs(cargs, largs, name)
    {
      ret := " \"";
      for i := 0 to |cargs|
        invariant ret == " \"" + Spaced(cargs[..i])
      {
        assert cargs[..i + 1] == cargs[..i] + [cargs[i]];
        SpacedSnoc(cargs[..i], cargs[i]);
        ret := ret + cargs[i] + " ";
      }
      assert cargs[..|cargs|] == cargs;
      ret := ret + " \" \" ";
      ghost var mid := ret;
      for i := 0 to |largs|
        invariant ret == mid + Spaced(largs[..i])
      {
        assert largs[..i + 1] == largs[..i] + [largs[i]];
        SpacedSnoc(largs[..i], largs[i]);
        ret := ret + largs[i] + " ";
      }
      assert largs[..|largs|] == largs;
      ret := ret + " \" " + name;
    }

    /** `ToolchainAll`: every registered toolchain whose flag is false is
        marked and run, once, in registration order. */
    method ToolchainAll()
      requires Valid()
      modifies this`targetExecuted, this`builds
      ensures Valid()
      ensures builds == old(builds) + Pending(targets, old(targetExecuted))
      ensures targetExecuted.Keys == old(targetExecuted).Keys
      ensures forall n :: n in targets ==> targetExecuted[n]
    {
      ghost var ex0 := targetExecuted;
      ghost var b0 := builds;
      for i := 0 to |targets|
        invariant TargetState(targets, targetExecuted, builds)
        invariant builds == b0 + Pending(targets[..i], ex0)
        invariant targetExecuted == MarkAll(ex0, targets[..i])
      {
        BuildAt(i, ex0, b0);
      }
      assert targets[..|targets|] == targets;
      MarkAllFlags(ex0, targets);
    }

    /** One step of `ToolchainAll`: the toolchain at `i` is marked, and run
        if its flag was false. */
    method BuildAt(i: nat, ghost ex0: map<Bytes, bool>, ghost b0: seq<Bytes>)
      requires i < |targets| && TargetState(targets, targetExecuted, builds) && ex0.Keys == targetExecuted.Keys
      requires builds == b0 + Pending(targets[..i], ex0) && targetExecuted == MarkAll(ex0, targets[..i])
      modifies this`targetExecuted, this`builds
      ensures TargetState(targets, targetExecuted, builds)
      ensures builds == b0 + Pending(targets[..i + 1], ex0)
      ensures targetExecuted == MarkAll(ex0, targets[..i + 1])
    {
      var id := targets[i];
      MarkAllStep(ex0, targets, i);
      PendingStep(targets, i, ex0);
      if !targetExecuted[id] {
        TargetRan(targets, targetExecuted, builds, id);
        ConcatAssoc(b0, Pending(targets[..i], ex0), [id]);
        targetExecuted := targetExecuted[id := true];
        builds := builds + [id];
      } else {
        assert targetExecuted[id := true] == targetExecuted;
        assert Pending(targets[..i], ex0) + [] == Pending(targets[..i], ex0);
      }
    }

    /** `GetGenerator`. */
    method GetGenerator(id: Bytes) returns (r: Option<Bytes>)
      ensures r == if id in generators then Some(id) else None
    {
      r := if id in generators then Some(id) else None;
    }

    /** `RegisterGenerator`: a taken id is rejected. */
    method RegisterGenerator(id: Bytes)
      requires Valid()
      modifies this`generators
      ensures Valid()
      ensures generators == if id in old(generators) then old(generators) else old(generators) + [id]
    {
      if id !in generators {
        generators := generators + [id];
      }
    }

    /** `GetGeneratorsList`. */
    method GetGeneratorsList() returns (ret: seq<Bytes>)
      ensures ret == generators
    {
      ret := [];
      for i := 0 to |generators|
        invariant ret == generators[..i]
      {
        assert generators[..i + 1] == generators[..i] + [generators[i]];
        ret := ret + [generators[i]];
      }
      assert generators[..|generators|] == generators;
    }

    /** `GetToolchainsList`. */
    method GetToolchainsList() returns (ret: seq<Bytes>)
      ensures ret == targets
    {
      ret := [];
      for i := 0 to |targets|
        invariant ret == targets[..i]
      {
        assert targets[..i + 1] == targets[..i] + [targets[i]];
        ret := ret + [targets[i]];
      }
      assert targets[..|targets|] == targets;
    }

    /** `GetTasksList`: task names in registration order. */
    method GetTasksList() returns (ret: seq<Bytes>)
      ensures |ret| == |tasks| && forall i :: 0 <= i < |tasks| ==> ret[i] == tasks[i].key
    {
      ret := [];
      for i := 0 to |tasks|
        invariant |ret| == i && forall j :: 0 <= j < i ==> ret[j] == tasks[j].key
      {
        ret := ret + [tasks[i].key];
      }
    }

    /** `Registry::init`: the system keywords and their tasks, which
        require nothing, then the "make" and "ccj" generators. */
    method Init()
      requires Valid()
      modifies this`tasks, this`taskExecuted, this`keywords, this`generators
      ensures Valid()
      ensures Registered(keywords, tasks, SystemKeywords)
      ensures "make" in generators && "ccj" in generators
    {
      for i := 0 to |SystemKeywords|
        invariant Valid()
        invariant Registered(keywords, tasks, SystemKeywords[..i])
      {
        ghost var k0 := keywords;
        ghost var t0 := tasks;
        RegisterKeyword(SystemKeywords[i].0, SystemKeywords[i].1, []);
        RegisteredStep(k0, keywords, t0, tasks, SystemKeywords, i);
      }
      assert SystemKeywords[..|SystemKeywords|] == SystemKeywords;
      RegisterGenerator("make");
      RegisterGenerator("ccj");
    }
  }

  /** Two entries with the same key are the same entry. */
  lemma UniqueKeysAt<K, D>(c: seq<Entry<K, D>>, i: nat, j: nat)
    requires UniqueKeys(c) && i < |c| && j < |c| && c[i].key == c[j].key
    ensures i == j
  {
  }

  /** Every keyword of `pairs` and every task it names is registered. */
  ghost predicate Registered(keywords: seq<Entry<Bytes, Bytes>>, tasks: seq<Entry<Bytes, seq<Bytes>>>, pairs: seq<(Bytes, Bytes)>) {
    forall i :: 0 <= i < |pairs| ==> FirstIndex(keywords, pairs[i].0).Some? && FirstIndex(tasks, pairs[i].1).Some?
  }

  /** Registering one more keyword keeps the earlier ones and adds it. */
  lemma RegisteredStep(k0: seq<Entry<Bytes, Bytes>>, k1: seq<Entry<Bytes, Bytes>>,
                       t0: seq<Entry<Bytes, seq<Bytes>>>, t1: seq<Entry<Bytes, seq<Bytes>>>,
                       pairs: seq<(Bytes, Bytes)>, i: nat)
    requires i < |pairs| && Registered(k0, t0, pairs[..i])
    requires k1 == if FirstIndex(k0, pairs[i].0).None? then k0 + [Entry(pairs[i].0, pairs[i].1)] else k0
    requires t1 == if FirstIndex(t0, pairs[i].1).None? then t0 + [Entry(pairs[i].1, [])] else t0
    ensures Registered(k1, t1, pairs[..i + 1])
  {
    var key := pairs[i].0;
    var task := pairs[i].1;
    FirstIndexAppend(k0, Entry(key, task), key);
    FirstIndexAppend(t0, Entry(task, []), task);
    var p := pairs[..i + 1];
    forall j | 0 <= j < |p|
      ensures FirstIndex(k1, p[j].0).Some? && FirstIndex(t1, p[j].1).Some?
    {
      if j < i {
        assert p[j] == pairs[..i][j];
        FirstIndexAppend(k0, Entry(key, task), p[j].0);
        FirstIndexAppend(t0, Entry(task, []), p[j].1);
      }
    }
  }
}
