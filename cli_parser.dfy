/** `CBuild::parse`: the command line, token after token, through the
    table of argument handlers and then the registered keywords, into the
    kind of run and the arguments map (`lib::map<std::string, std::string>`,
    an association list in which the first value stored under a key
    stays). A handler that calls `CBuild::exit` ends the parse with that
    status; undefined behaviour and an exception nobody catches end it
    with `Crashed`. */
module CliParser {
  import opened Bytes
  import opened Wrappers
  import opened LibMap
  import opened RunType
  import opened Numbers
  import Register

  /** The handlers as the source has them, or with the defects listed in
      the README corrected. */
  datatype Version = AsWritten | Corrected

  /** What the handlers read from the registry after `Registry::init`. */
  datatype Ctx = Ctx(generators: seq<Bytes>, toolchains: seq<Bytes>, tasks: seq<Bytes>,
                     keywords: seq<Entry<Bytes, Bytes>>)

  /** The run type, the arguments map and the global `-a` and `-pa`
      counters. */
  datatype State = State(ret: RType, args: seq<Entry<Bytes, Bytes>>, arg: nat, parg: nat)

  /** What one handler does: go on with `inc` tokens consumed, exit, or
      crash. */
  datatype Step = Next(st: State, inc: nat) | Exit(code: int) | Crash

  datatype Outcome = Parsed(ret: RType, args: seq<Entry<Bytes, Bytes>>) | Exited(code: int) | Crashed

  const ExitError: int := 0xFF

  const ForceKey: Bytes := "force"
  const OutKey: Bytes := "out"
  const GenKey: Bytes := "gen"
  const ToolchainKey: Bytes := "toolchain_id"
  const TaskKey: Bytes := "task_id"
  const All: Bytes := "all"

  /** `push_back_check` inside a `try` whose `catch` only reports: the
      value is stored only when the key is new. */
  function Insert(args: seq<Entry<Bytes, Bytes>>, k: Bytes, v: Bytes): seq<Entry<Bytes, Bytes>> {
    if Has(args, k) then args else args + [Entry(k, v)]
  }

  /** `lib::map::get` finds the key. */
  function Has(args: seq<Entry<Bytes, Bytes>>, k: Bytes): bool
    decreases |args|
  {
    |args| > 0 && (args[0].key == k || Has(args[1..], k))
  }

  lemma {:induction false} HasFirst(args: seq<Entry<Bytes, Bytes>>, k: Bytes)
    ensures Has(args, k) <==> FirstIndex(args, k).Some?
    decreases |args|
  {
    if args != [] {
      HasFirst(args[1..], k);
    }
  }

  /** Task name stored by the first keyword entry with the name. */
  function KeywordTask(keywords: seq<Entry<Bytes, Bytes>>, tok: Bytes): Option<Bytes>
    decreases |keywords|
  {
    if keywords == [] then None
    else if keywords[0].key == tok then Some(keywords[0].data)
    else KeywordTask(keywords[1..], tok)
  }

  lemma {:induction false} KeywordFirst(keywords: seq<Entry<Bytes, Bytes>>, tok: Bytes)
    ensures KeywordTask(keywords, tok).Some? <==> FirstIndex(keywords, tok).Some?
    ensures KeywordTask(keywords, tok).Some? ==>
              KeywordTask(keywords, tok).value == keywords[FirstIndex(keywords, tok).value].data
    decreases |keywords|
  {
    if keywords != [] && keywords[0].key != tok {
      KeywordFirst(keywords[1..], tok);
    }
  }

  /** A stored key keeps its first value, and keys stay unique. */
  lemma InsertKeeps(args: seq<Entry<Bytes, Bytes>>, k: Bytes, v: Bytes)
    ensures args <= Insert(args, k, v)
    ensures FirstIndex(Insert(args, k, v), k).Some?
    ensures FirstIndex(args, k).Some? ==> FirstIndex(Insert(args, k, v), k) == FirstIndex(args, k)
    ensures FirstIndex(args, k).None? ==> Insert(args, k, v)[FirstIndex(Insert(args, k, v), k).value].data == v
    ensures UniqueKeys(args) ==> UniqueKeys(Insert(args, k, v))
  {
    HasFirst(args, k);
    FirstIndexAppend(args, Entry(k, v), k);
    if FirstIndex(args, k).None? && UniqueKeys(args) {
      UniqueAfterCheckedPush(args, Entry(k, v));
    }
  }

  datatype Handler = ForceH | OutH | GeneratorH | BuildH | TaskH | ArgH | RebuildH

  /** The table `CBuild::arguments`. */
  const Handlers: map<Bytes, Handler> :=
    map["-f" := ForceH, "-v" := OutH, "--no-cli-out" := OutH, "-g" := GeneratorH,
        "-b" := BuildH, "-r" := BuildH, "-br" := BuildH, "-d" := BuildH, "-ld" := BuildH, "-c" := BuildH,
        "-t" := TaskH, "-a" := ArgH, "-pa" := ArgH, "--rebuild" := RebuildH]

  function HandlerOf(tok: Bytes): Option<Handler> {
    if tok in Handlers then Some(Handlers[tok]) else None
  }

  /** `force_handler`. */
  function Force(st: State): Step {
    Next(st.(args := Insert(st.args, ForceKey, ForceKey)), 1)
  }

  /** `out_handler`. When the mode is already set, the source's message
      reads the token after the flag, which is `argv[argc]`, a null
      pointer, when the flag is the last token. */
  function Out(v: Version, argv: seq<Bytes>, ptr: nat, st: State): Step
    requires ptr < |argv|
  {
    var mode: Bytes := if argv[ptr] == "-v" then "verbose" else "none";
    if argv[ptr] != "-v" && argv[ptr] != "--no-cli-out" then Exit(ExitError)
    else if v == AsWritten && Has(st.args, OutKey) && ptr + 1 == |argv| then Crash
    else Next(st.(args := Insert(st.args, OutKey, mode)), 1)
  }

  /** The operand check of `generator_handler` and `build_handler`: as
      written `!(argc >= ptr + 1)`, which never holds, corrected
      `!(argc > ptr + 1)`. */
  predicate OperandMissing(v: Version, argc: nat, ptr: nat) {
    if v == AsWritten then !(argc >= ptr + 1) else !(argc > ptr + 1)
  }

  /** `generator_handler`. */
  function Generator(v: Version, ctx: Ctx, argv: seq<Bytes>, ptr: nat, st: State): Step
    requires ptr < |argv|
  {
    if OperandMissing(v, |argv|, ptr) then Exit(ExitError)
    else if ptr + 1 == |argv| then Crash
    else if argv[ptr + 1] !in ctx.generators then Exit(ExitError)
    else Next(st.(args := Insert(st.args, GenKey, argv[ptr + 1])), 2)
  }

  /** The run type `build_handler` picks for its token. */
  function BuildType(tok: Bytes, ret: RType): RType {
    if tok == "-b" then Build
    else if tok == "-br" then BuildRun
    else if tok == "-r" then Run
    else if tok == "-d" then Debug
    else if tok == "-c" then Clear
    else if tok == "-ld" then LoadDeps
    else ret
  }

  /** `build_handler`: a registered toolchain, or "all" after `-b`. */
  function BuildStep(v: Version, ctx: Ctx, argv: seq<Bytes>, ptr: nat, st: State): Step
    requires ptr < |argv|
  {
    if OperandMissing(v, |argv|, ptr) then Exit(ExitError)
    else if ptr + 1 == |argv| then Crash
    else
      var t := BuildType(argv[ptr], st.ret);
      var id := argv[ptr + 1];
      if id !in ctx.toolchains && !(t == Build && id == All) then Exit(ExitError)
      else Next(st.(ret := t, args := Insert(st.args, ToolchainKey, id)), 2)
  }

  /** `task_handler`. As written it stores a task once without a `try`,
      so a second task on the command line is an uncaught exception. */
  function TaskStep(v: Version, ctx: Ctx, argv: seq<Bytes>, ptr: nat, st: State): Step
    requires ptr < |argv|
  {
    if !(|argv| > ptr + 1) then Exit(ExitError)
    else if argv[ptr + 1] !in ctx.tasks then Exit(ExitError)
    else if v == AsWritten && Has(st.args, TaskKey) then Crash
    else Next(st.(ret := Task, args := Insert(st.args, TaskKey, argv[ptr + 1])), 2)
  }

  /** `arg_handler`: the n-th `-a` is stored as "a<n>", the n-th `-pa` as
      "pa<n>". As written its operand check is `!(argc < ptr + 1)`, which
      always holds. */
  function ArgStep(v: Version, argv: seq<Bytes>, ptr: nat, st: State): Step
    requires ptr < |argv|
  {
    if (if v == AsWritten then !(|argv| < ptr + 1) else !(|argv| > ptr + 1)) then Exit(ExitError)
    else if ptr + 1 >= |argv| then Crash
    else if argv[ptr] == "-pa" then
      Next(st.(args := Insert(st.args, "pa" + Decimal(st.parg), argv[ptr + 1]), parg := st.parg + 1), 2)
    else if argv[ptr] == "-a" then
      Next(st.(args := Insert(st.args, "a" + Decimal(st.arg), argv[ptr + 1]), arg := st.arg + 1), 2)
    else Next(st, 2)
  }

  /** A token with no handler: a registered keyword runs its task,
      anything else exits. */
  function KeywordStep(ctx: Ctx, tok: Bytes, st: State): Step {
    match KeywordTask(ctx.keywords, tok)
    case Some(task) => Next(st.(ret := Task, args := Insert(st.args, TaskKey, task)), 1)
    case None => Exit(ExitError)
  }

  /** One turn of the loop of `CBuild::parse`. */
  function StepAt(v: Version, ctx: Ctx, argv: seq<Bytes>, ptr: nat, st: State): (r: Step)
    requires ptr < |argv|
    ensures r.Next? ==> 1 <= r.inc <= 2
    ensures r.Next? && r.inc == 2 ==> ptr + 1 < |argv|
  {
    match HandlerOf(argv[ptr])
    case Some(ForceH) => Force(st)
    case Some(OutH) => Out(v, argv, ptr, st)
    case Some(GeneratorH) => Generator(v, ctx, argv, ptr, st)
    case Some(BuildH) => BuildStep(v, ctx, argv, ptr, st)
    case Some(TaskH) => TaskStep(v, ctx, argv, ptr, st)
    case Some(ArgH) => ArgStep(v, argv, ptr, st)
    case Some(RebuildH) => Next(st.(ret := Rebuild), 1)
    case None => KeywordStep(ctx, argv[ptr], st)
  }

  /** The loop of `CBuild::parse` from token `ptr` on. */
  function Loop(v: Version, ctx: Ctx, argv: seq<Bytes>, ptr: nat, st: State): Outcome
    decreases |argv| - ptr
  {
    if ptr >= |argv| then Parsed(st.ret, st.args)
    else match StepAt(v, ctx, argv, ptr, st)
      case Next(st', inc) => Loop(v, ctx, argv, ptr + inc, st')
      case Exit(code) => Exited(code)
      case Crash => Crashed
  }

  /** One round of the loop. */
  lemma LoopUnfold(v: Version, ctx: Ctx, argv: seq<Bytes>, ptr: nat, st: State)
    requires ptr < |argv|
    ensures var s := StepAt(v, ctx, argv, ptr, st);
            (s.Next? ==> Loop(v, ctx, argv, ptr, st) == Loop(v, ctx, argv, ptr + s.inc, s.st))
            && (s.Exit? ==> Loop(v, ctx, argv, ptr, st) == Exited(s.code))
            && (s.Crash? ==> Loop(v, ctx, argv, ptr, st) == Crashed)
  {
  }

  /** `CBuild::parse` on `argv`, `argv[0]` being the program name. */
  function Parse(v: Version, ctx: Ctx, args0: seq<Entry<Bytes, Bytes>>, argv: seq<Bytes>): Outcome {
    Loop(v, ctx, argv, 1, State(Error, args0, 0, 0))
  }

  /** The names of the registered tasks, as `GetTasksList` gives them. */
  function TaskNames(tasks: seq<Entry<Bytes, seq<Bytes>>>): (r: seq<Bytes>)
    ensures |r| == |tasks| && forall i :: 0 <= i < |tasks| ==> r[i] == tasks[i].key
  {
    if tasks == [] then [] else TaskNames(tasks[..|tasks| - 1]) + [tasks[|tasks| - 1].key]
  }

  /** `CBuild::parse`: initialises the registry, reads its lists and runs
      the handlers, as written or corrected, over the tokens. The
      registry gains the system keywords and their tasks and the "make"
      and "ccj" generators; nothing else in it changes. */
  method ParseArgs(v: Version, reg: Register.Registry, args0: seq<Entry<Bytes, Bytes>>, argv: seq<Bytes>) returns (o: Outcome)
    requires reg.Valid()
    modifies reg`tasks, reg`taskExecuted, reg`keywords, reg`generators
    ensures reg.Valid()
    ensures Register.Registered(reg.keywords, reg.tasks, Register.SystemKeywords)
    ensures "make" in reg.generators && "ccj" in reg.generators
    ensures reg.targets == old(reg.targets) && reg.targetExecuted == old(reg.targetExecuted)
    ensures reg.calls == old(reg.calls) && reg.builds == old(reg.builds)
    ensures o == Parse(v, Ctx(reg.generators, reg.targets, TaskNames(reg.tasks), reg.keywords), args0, argv)
  {
    reg.Init();
    var gens := reg.GetGeneratorsList();
    var tools := reg.GetToolchainsList();
    var tasks := reg.GetTasksList();
    assert tasks == TaskNames(reg.tasks);
    var keywords := reg.GetKeywordsList();
    o := RunLoop(v, Ctx(gens, tools, tasks, keywords), args0, argv);
  }

  /** The token loop of `CBuild::parse`. */
  method RunLoop(v: Version, ctx: Ctx, args0: seq<Entry<Bytes, Bytes>>, argv: seq<Bytes>) returns (o: Outcome)
    ensures o == Parse(v, ctx, args0, argv)
  {
    var st := State(Error, args0, 0, 0);
    var ptr: nat := 1;
    while ptr < |argv|
      invariant Loop(v, ctx, argv, 1, State(Error, args0, 0, 0)) == Loop(v, ctx, argv, ptr, st)
      decreases |argv| - ptr
    {
      var s := Advance(v, ctx, argv, ptr, st);
      if !s.Next? {
        return if s.Exit? then Exited(s.code) else Crashed;
      }
      st, ptr := s.st, ptr + s.inc;
    }
    o := Parsed(st.ret, st.args);
  }

  /** One handler call of the loop, stated through the rest of the loop. */
  method Advance(v: Version, ctx: Ctx, argv: seq<Bytes>, ptr: nat, st: State) returns (s: Step)
    requires ptr < |argv|
    ensures s.Next? ==> 1 <= s.inc && Loop(v, ctx, argv, ptr, st) == Loop(v, ctx, argv, ptr + s.inc, s.st)
    ensures s.Exit? ==> Loop(v, ctx, argv, ptr, st) == Exited(s.code)
    ensures s.Crash? ==> Loop(v, ctx, argv, ptr, st) == Crashed
  {
    s := StepAt(v, ctx, argv, ptr, st);
    LoopUnfold(v, ctx, argv, ptr, st);
  }

  /** The keys and values the handlers check: a registered generator, a
      registered toolchain or "all", and a registered task or one a keyword
      names. */
  ghost predicate Checked(ctx: Ctx, args: seq<Entry<Bytes, Bytes>>) {
    forall i :: 0 <= i < |args| ==> Allowed(ctx, args[i].key, args[i].data)
  }

  ghost predicate Allowed(ctx: Ctx, k: Bytes, x: Bytes) {
    (k == GenKey ==> x in ctx.generators)
    && (k == ToolchainKey ==> x in ctx.toolchains || x == All)
    && (k == TaskKey ==> x in ctx.tasks || exists j :: 0 <= j < |ctx.keywords| && ctx.keywords[j].data == x)
  }

  /** Storing an allowed value keeps the map checked, its entries and
      unique keys. */
  lemma InsertChecked(ctx: Ctx, args: seq<Entry<Bytes, Bytes>>, k: Bytes, x: Bytes)
    requires Allowed(ctx, k, x)
    ensures args <= Insert(args, k, x)
    ensures UniqueKeys(args) ==> UniqueKeys(Insert(args, k, x))
    ensures Checked(ctx, args) ==> Checked(ctx, Insert(args, k, x))
  {
    InsertKeeps(args, k, x);
    var a := Insert(args, k, x);
    assert forall i :: 0 <= i < |args| ==> a[i] == args[i];
  }

  /** The keys of `-a` and `-pa` operands are none of the checked keys. */
  lemma CounterKeysFree(n: nat, x: Bytes)
    ensures Allowed(Ctx([], [], [], []), "a" + Decimal(n), x) && Allowed(Ctx([], [], [], []), "pa" + Decimal(n), x)
  {
    var a := "a" + Decimal(n);
    var pa := "pa" + Decimal(n);
    assert a[0] == 'a' && pa[0] == 'p';
    assert GenKey[0] == 'g' && ToolchainKey[0] == 't' && TaskKey[0] == 't';
  }

  /** What one step keeps: earlier entries, unique keys and checked
      values. */
  lemma StepKeeps(v: Version, ctx: Ctx, argv: seq<Bytes>, ptr: nat, st: State)
    requires ptr < |argv|
    requires StepAt(v, ctx, argv, ptr, st).Next?
    ensures st.args <= StepAt(v, ctx, argv, ptr, st).st.args
    ensures UniqueKeys(st.args) ==> UniqueKeys(StepAt(v, ctx, argv, ptr, st).st.args)
    ensures Checked(ctx, st.args) ==> Checked(ctx, StepAt(v, ctx, argv, ptr, st).st.args)
  {
    match HandlerOf(argv[ptr])
    case Some(ForceH) =>
      InsertChecked(ctx, st.args, ForceKey, ForceKey);
    case Some(OutH) =>
      var mode: Bytes := if argv[ptr] == "-v" then "verbose" else "none";
      InsertChecked(ctx, st.args, OutKey, mode);
    case Some(GeneratorH) =>
      InsertChecked(ctx, st.args, GenKey, argv[ptr + 1]);
    case Some(BuildH) =>
      InsertChecked(ctx, st.args, ToolchainKey, argv[ptr + 1]);
    case Some(TaskH) =>
      InsertChecked(ctx, st.args, TaskKey, argv[ptr + 1]);
    case Some(ArgH) =>
      CounterKeysFree(st.arg, argv[ptr + 1]);
      CounterKeysFree(st.parg, argv[ptr + 1]);
      ArgKeys(ctx, st.arg, argv[ptr + 1]);
      ArgKeys(ctx, st.parg, argv[ptr + 1]);
      InsertChecked(ctx, st.args, "a" + Decimal(st.arg), argv[ptr + 1]);
      InsertChecked(ctx, st.args, "pa" + Decimal(st.parg), argv[ptr + 1]);
    case Some(RebuildH) =>
    case None =>
      KeywordFirst(ctx.keywords, argv[ptr]);
      var j := FirstIndex(ctx.keywords, argv[ptr]).value;
      InsertChecked(ctx, st.args, TaskKey, ctx.keywords[j].data);
  }

  lemma ArgKeys(ctx: Ctx, n: nat, x: Bytes)
    ensures Allowed(ctx, "a" + Decimal(n), x) && Allowed(ctx, "pa" + Decimal(n), x)
  {
    CounterKeysFree(n, x);
  }

  /** Whatever the tokens, the parse keeps the entries it was given in
      front, keeps keys unique and stores only checked values. */
  lemma {:induction false} LoopKeeps(v: Version, ctx: Ctx, argv: seq<Bytes>, ptr: nat, st: State)
    requires Loop(v, ctx, argv, ptr, st).Parsed?
    ensures st.args <= Loop(v, ctx, argv, ptr, st).args
    ensures UniqueKeys(st.args) ==> UniqueKeys(Loop(v, ctx, argv, ptr, st).args)
    ensures Checked(ctx, st.args) ==> Checked(ctx, Loop(v, ctx, argv, ptr, st).args)
    decreases |argv| - ptr
  {
    if ptr < |argv| {
      var s := StepAt(v, ctx, argv, ptr, st);
      LoopUnfold(v, ctx, argv, ptr, st);
      assert s.Next? && Loop(v, ctx, argv, ptr, st) == Loop(v, ctx, argv, ptr + s.inc, s.st);
      StepKeeps(v, ctx, argv, ptr, st);
      LoopKeeps(v, ctx, argv, ptr + s.inc, s.st);
    }
  }

  /** The corrected handlers never read past the last token and never let
      an exception escape. */
  lemma {:induction false} CorrectedNeverCrashes(ctx: Ctx, argv: seq<Bytes>, ptr: nat, st: State)
    ensures Loop(Corrected, ctx, argv, ptr, st) != Crashed
    decreases |argv| - ptr
  {
    if ptr < |argv| {
      var s := StepAt(Corrected, ctx, argv, ptr, st);
      assert s != Crash;
      if s.Next? {
        CorrectedNeverCrashes(ctx, argv, ptr + s.inc, s.st);
      }
    }
  }

  /** With no tokens after the program name the run type stays `ERROR` and
      the map is untouched. */
  lemma NoTokens(v: Version, ctx: Ctx, args0: seq<Entry<Bytes, Bytes>>, prog: Bytes)
    ensures Parse(v, ctx, args0, [prog]) == Parsed(Error, args0)
    ensures Parse(v, ctx, args0, []) == Parsed(Error, args0)
  {
  }

  /** As written, `-a` and `-pa` always exit with status 0xFF. */
  lemma ArgAlwaysExits(argv: seq<Bytes>, ptr: nat, st: State)
    requires ptr < |argv| && HandlerOf(argv[ptr]) == Some(ArgH)
    ensures StepAt(AsWritten, Ctx([], [], [], []), argv, ptr, st) == Exit(ExitError)
  {
  }

  /** So, as written, the whole parse of `cbuild -a x` exits with status
      0xFF, whatever the registry holds. */
  lemma ArgParseExits(ctx: Ctx, args0: seq<Entry<Bytes, Bytes>>, x: Bytes)
    ensures Parse(AsWritten, ctx, args0, ["cbuild", "-a", x]) == Exited(ExitError)
  {
    LoopUnfold(AsWritten, ctx, ["cbuild", "-a", x], 1, State(Error, args0, 0, 0));
  }

  /** Corrected, the n-th `-a` stores its operand under "a<n>". */
  lemma ArgStored(ctx: Ctx, argv: seq<Bytes>, ptr: nat, st: State)
    requires ptr + 1 < |argv| && argv[ptr] == "-a"
    ensures StepAt(Corrected, ctx, argv, ptr, st)
      == Next(st.(args := Insert(st.args, "a" + Decimal(st.arg), argv[ptr + 1]), arg := st.arg + 1), 2)
  {
  }

  /** Corrected, the n-th `-pa` stores its operand under "pa<n>". */
  lemma PaStored(ctx: Ctx, argv: seq<Bytes>, ptr: nat, st: State)
    requires ptr + 1 < |argv| && argv[ptr] == "-pa"
    ensures StepAt(Corrected, ctx, argv, ptr, st)
      == Next(st.(args := Insert(st.args, "pa" + Decimal(st.parg), argv[ptr + 1]), parg := st.parg + 1), 2)
  {
  }

  /** As written, `-g` or a toolchain flag as the last token reads
      `argv[argc]`; corrected, it exits with status 0xFF. */
  lemma LastOperandMissing(v: Version, ctx: Ctx, argv: seq<Bytes>, st: State)
    requires |argv| > 0
    requires HandlerOf(argv[|argv| - 1]) == Some(GeneratorH) || HandlerOf(argv[|argv| - 1]) == Some(BuildH)
    ensures StepAt(v, ctx, argv, |argv| - 1, st) == if v == AsWritten then Crash else Exit(ExitError)
  {
  }

  /** As written, a second task, given by `-t` after `-t` or after a
      keyword, escapes as an exception; corrected, the first task stays. */
  lemma SecondTask(v: Version, ctx: Ctx, argv: seq<Bytes>, ptr: nat, st: State)
    requires ptr + 1 < |argv| && argv[ptr] == "-t" && argv[ptr + 1] in ctx.tasks
    requires FirstIndex(st.args, TaskKey).Some?
    ensures StepAt(v, ctx, argv, ptr, st) == if v == AsWritten then Crash else Next(st.(ret := Task), 2)
  {
    HasFirst(st.args, TaskKey);
  }

  /** As written, a repeated output flag as the last token reads
      `argv[argc]` for its message; corrected, the first mode stays. */
  lemma SecondOutLast(v: Version, ctx: Ctx, argv: seq<Bytes>, st: State)
    requires |argv| > 0 && argv[|argv| - 1] == "-v" && FirstIndex(st.args, OutKey).Some?
    ensures StepAt(v, ctx, argv, |argv| - 1, st) == if v == AsWritten then Crash else Next(st, 1)
  {
    HasFirst(st.args, OutKey);
  }

  /** `-t x -t x` on a registry where task x exists. */
  lemma TaskTwiceRun(x: Bytes)
    ensures Parse(AsWritten, Ctx([], [], [x], []), [], ["cbuild", "-t", x, "-t", x]) == Crashed
    ensures Parse(Corrected, Ctx([], [], [x], []), [], ["cbuild", "-t", x, "-t", x]) == Parsed(Task, [Entry(TaskKey, x)])
  {
    var ctx := Ctx([], [], [x], []);
    var argv: seq<Bytes> := ["cbuild", "-t", x, "-t", x];
    var s1 := State(Task, [Entry(TaskKey, x)], 0, 0);
    assert Has([Entry(TaskKey, x)], TaskKey);
    assert StepAt(AsWritten, ctx, argv, 1, State(Error, [], 0, 0)) == Next(s1, 2);
    assert StepAt(AsWritten, ctx, argv, 3, s1) == Crash;
    assert Loop(AsWritten, ctx, argv, 1, State(Error, [], 0, 0)) == Loop(AsWritten, ctx, argv, 3, s1);
    assert StepAt(Corrected, ctx, argv, 1, State(Error, [], 0, 0)) == Next(s1, 2);
    assert StepAt(Corrected, ctx, argv, 3, s1) == Next(s1, 2);
    assert Loop(Corrected, ctx, argv, 1, State(Error, [], 0, 0)) == Loop(Corrected, ctx, argv, 3, s1);
    assert Loop(Corrected, ctx, argv, 3, s1) == Loop(Corrected, ctx, argv, 5, s1);
  }

  /** The first `-a`, a `-pa` and the second `-a`, corrected. */
  lemma ArgsNumbered(x: Bytes, y: Bytes, z: Bytes)
    ensures Parse(Corrected, Ctx([], [], [], []), [], ["cbuild", "-a", x, "-pa", y, "-a", z])
         == Parsed(Error, [Entry("a0", x), Entry("pa0", y), Entry("a1", z)])
  {
    var ctx := Ctx([], [], [], []);
    var argv: seq<Bytes> := ["cbuild", "-a", x, "-pa", y, "-a", z];
    var s0 := State(Error, [], 0, 0);
    var s1 := State(Error, [Entry("a0", x)], 1, 0);
    var s2 := State(Error, [Entry("a0", x), Entry("pa0", y)], 1, 1);
    var s3 := State(Error, [Entry("a0", x), Entry("pa0", y), Entry("a1", z)], 2, 1);
    ArgsNumberedSteps(argv, x, y, z);
    assert Loop(Corrected, ctx, argv, 1, s0) == Loop(Corrected, ctx, argv, 3, s1);
    assert Loop(Corrected, ctx, argv, 3, s1) == Loop(Corrected, ctx, argv, 5, s2);
    assert Loop(Corrected, ctx, argv, 5, s2) == Loop(Corrected, ctx, argv, 7, s3);
  }

  lemma ArgsNumberedSteps(argv: seq<Bytes>, x: Bytes, y: Bytes, z: Bytes)
    requires argv == ["cbuild", "-a", x, "-pa", y, "-a", z]
    ensures StepAt(Corrected, Ctx([], [], [], []), argv, 1, State(Error, [], 0, 0))
         == Next(State(Error, [Entry("a0", x)], 1, 0), 2)
    ensures StepAt(Corrected, Ctx([], [], [], []), argv, 3, State(Error, [Entry("a0", x)], 1, 0))
         == Next(State(Error, [Entry("a0", x), Entry("pa0", y)], 1, 1), 2)
    ensures StepAt(Corrected, Ctx([], [], [], []), argv, 5, State(Error, [Entry("a0", x), Entry("pa0", y)], 1, 1))
         == Next(State(Error, [Entry("a0", x), Entry("pa0", y), Entry("a1", z)], 2, 1), 2)
  {
    assert Decimal(0) == "0" && Decimal(1) == "1";
    FirstArg(argv, x);
    SecondArg(argv, x, y);
    ThirdArg(argv, x, y, z);
  }

  lemma FirstArg(argv: seq<Bytes>, x: Bytes)
    requires |argv| > 2 && argv[1] == "-a" && argv[2] == x
    ensures StepAt(Corrected, Ctx([], [], [], []), argv, 1, State(Error, [], 0, 0))
         == Next(State(Error, [Entry("a0", x)], 1, 0), 2)
  {
    assert Decimal(0) == "0";
    ArgStored(Ctx([], [], [], []), argv, 1, State(Error, [], 0, 0));
    assert "a" + Decimal(0) == "a0";
  }

  lemma SecondArg(argv: seq<Bytes>, x: Bytes, y: Bytes)
    requires |argv| > 4 && argv[3] == "-pa" && argv[4] == y
    ensures StepAt(Corrected, Ctx([], [], [], []), argv, 3, State(Error, [Entry("a0", x)], 1, 0))
         == Next(State(Error, [Entry("a0", x), Entry("pa0", y)], 1, 1), 2)
  {
    var a1: seq<Entry<Bytes, Bytes>> := [Entry("a0", x)];
    assert Decimal(0) == "0";
    PaStored(Ctx([], [], [], []), argv, 3, State(Error, a1, 1, 0));
    assert "pa" + Decimal(0) == "pa0";
    assert !Has(a1, "pa0") by {
      assert a1[0].key != "pa0" && a1[1..] == [];
    }
  }

  lemma ThirdArg(argv: seq<Bytes>, x: Bytes, y: Bytes, z: Bytes)
    requires |argv| > 6 && argv[5] == "-a" && argv[6] == z
    ensures StepAt(Corrected, Ctx([], [], [], []), argv, 5, State(Error, [Entry("a0", x), Entry("pa0", y)], 1, 1))
         == Next(State(Error, [Entry("a0", x), Entry("pa0", y), Entry("a1", z)], 2, 1), 2)
  {
    var a2: seq<Entry<Bytes, Bytes>> := [Entry("a0", x), Entry("pa0", y)];
    assert Decimal(1) == "1";
    ArgStored(Ctx([], [], [], []), argv, 5, State(Error, a2, 1, 1));
    assert "a" + Decimal(1) == "a1";
    assert !Has(a2, "a1") by {
      var t := a2[1..];
      assert t == [Entry("pa0", y)] && t[1..] == [];
      assert !Has(t[1..], "a1");
      assert !Has(t, "a1");
    }
  }

  /** The arguments map as a Dafny map: each key with its first value. */
  function AsMap(args: seq<Entry<Bytes, Bytes>>): (m: map<Bytes, Bytes>)
    ensures forall k :: k in m <==> FirstIndex(args, k).Some?
    ensures forall k :: k in m ==> m[k] == args[FirstIndex(args, k).value].data
    decreases |args|
  {
    if args == [] then map[] else AsMap(args[1..])[args[0].key := args[0].data]
  }
}
