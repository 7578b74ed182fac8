/** The output generators of the C++ CBuild: the Makefile generator, which
    writes the commands of a run as one make target, and the
    compile_commands.json generator, with its JSON string escaping. */
module Generator {
  import opened Bytes
  import opened Wrappers
  import opened RunType

  const Backspace: Byte := '\U{8}'
  const FormFeed: Byte := '\U{C}'

  /** The characters `preprocess_json_str` escapes. */
  predicate Special(c: Byte) {
    c == '"' || c == '\\' || c == '/' || c == Backspace || c == FormFeed || c == '\n' || c == '\r' || c == '\t'
  }

  /** The control characters among them: those with a one-letter JSON
      escape. Other bytes below 0x20 are passed through unescaped. */
  predicate NamedControl(c: Byte) {
    c == Backspace || c == FormFeed || c == '\n' || c == '\r' || c == '\t'
  }

  /** The letter after the backslash in the escape of `c`. */
  function EscapeLetter(c: Byte): Byte {
    if c == Backspace then 'b'
    else if c == FormFeed then 'f'
    else if c == '\n' then 'n'
    else if c == '\r' then 'r'
    else if c == '\t' then 't'
    else c
  }

  /** One case of the switch of `preprocess_json_str`. */
  function Escape(c: Byte): (r: Bytes)
    ensures Special(c) ==> r == ['\\', EscapeLetter(c)]
    ensures !Special(c) ==> r == [c]
  {
    match c
    case '"' => "\\\""
    case '\\' => "\\\\"
    case '/' => "\\/"
    case '\n' => "\\n"
    case '\r' => "\\r"
    case '\t' => "\\t"
    case _ =>
      if c == Backspace then "\\b"
      else if c == FormFeed then "\\f"
      else [c]
  }

  /** The escaped string: every character replaced by its escape. Nothing in
      it is one of the five escaped control characters. */
  function EscapeJson(s: Bytes): (r: Bytes)
    ensures forall i :: 0 <= i < |r| ==> !NamedControl(r[i])
    decreases |s|
  {
    if s == [] then [] else Escape(s[0]) + EscapeJson(s[1..])
  }

  /** `preprocess_json_str`. */
  method PreprocessJsonStr(str: Bytes) returns (ret: Bytes)
    ensures ret == EscapeJson(str)
  {
    ret := [];
    for i := 0 to |str|
      invariant ret == EscapeJson(str[..i])
    {
      assert str[..i + 1] == str[..i] + [str[i]];
      EscapeJsonAppend(str[..i], [str[i]]);
      assert [str[i]][1..] == [];
      ret := ret + Escape(str[i]);
    }
    assert str[..|str|] == str;
  }

  lemma {:induction false} EscapeJsonAppend(a: Bytes, b: Bytes)
    ensures EscapeJson(a + b) == EscapeJson(a) + EscapeJson(b)
    decreases |a|
  {
    if a == [] {
      assert a + b == b;
    } else {
      assert (a + b)[1..] == a[1..] + b;
      EscapeJsonAppend(a[1..], b);
    }
  }

  /** The number of characters that get a two-character escape. */
  function SpecialCount(s: Bytes): nat
    decreases |s|
  {
    if s == [] then 0 else (if Special(s[0]) then 1 else 0) + SpecialCount(s[1..])
  }

  /** Each escaped character adds one byte. */
  lemma {:induction false} EscapeJsonLength(s: Bytes)
    ensures |EscapeJson(s)| == |s| + SpecialCount(s)
    decreases |s|
  {
    if s != [] {
      EscapeJsonLength(s[1..]);
    }
  }

  /** Characters outside the eight pass through unchanged, other control
      characters included. */
  lemma OthersCopied(s: Bytes)
    requires forall i :: 0 <= i < |s| ==> !Special(s[i])
    ensures EscapeJson(s) == s
    decreases |s|
  {
    if s != [] {
      OthersCopied(s[1..]);
    }
  }

  /** The character an escape letter stands for (section 7 of RFC 8259,
      without `\u`). */
  function UnescapeLetter(l: Byte): Option<Byte> {
    if l == '"' || l == '\\' || l == '/' then Some(l)
    else if l == 'b' then Some(Backspace)
    else if l == 'f' then Some(FormFeed)
    else if l == 'n' then Some('\n')
    else if l == 'r' then Some('\r')
    else if l == 't' then Some('\t')
    else None
  }

  /** A JSON decoder for the body of a string: `None` for an unknown
      escape, a trailing backslash or an unescaped '"'. */
  function Unescape(e: Bytes): Option<Bytes>
    decreases |e|
  {
    if e == [] then Some([])
    else if e[0] == '\\' then
      if |e| < 2 then None
      else match (UnescapeLetter(e[1]), Unescape(e[2..]))
        case (Some(c), Some(rest)) => Some([c] + rest)
        case _ => None
    else if e[0] == '"' then None
    else match Unescape(e[1..])
      case Some(rest) => Some([e[0]] + rest)
      case None => None
  }

  /** A JSON decoder gets the original string back. */
  lemma {:induction false} UnescapeEscape(s: Bytes)
    ensures Unescape(EscapeJson(s)) == Some(s)
    decreases |s|
  {
    if s != [] {
      var c := s[0];
      var rest := EscapeJson(s[1..]);
      UnescapeEscape(s[1..]);
      var e := Escape(c) + rest;
      if Special(c) {
        assert e[0] == '\\' && e[1] == EscapeLetter(c) && e[2..] == rest;
        assert UnescapeLetter(EscapeLetter(c)) == Some(c);
      } else {
        assert e[0] == c && e[1..] == rest;
      }
      assert [c] + s[1..] == s;
    }
  }

  /** `eval_cmd`: compiler, " -c ", the file, " ", the arguments, " -o ",
      the object, one after the other. */
  function EvalCmd(file: Bytes, obj: Bytes, compiler: Bytes, args: Bytes): (r: Bytes)
    ensures |r| == |compiler| + |file| + |args| + |obj| + 9
    ensures r[..|compiler|] == compiler && r[|compiler|..|compiler| + 4] == " -c "
    ensures r[|compiler| + 4..|compiler| + 4 + |file|] == file
    ensures r[|compiler| + 4 + |file|] == ' '
    ensures r[|compiler| + 5 + |file|..|compiler| + 5 + |file| + |args|] == args
    ensures r[|r| - |obj| - 4..|r| - |obj|] == " -o " && r[|r| - |obj|..] == obj
  {
    var cmd := compiler + " -c ";
    var cmd' := cmd + file;
    var cmd'' := cmd' + " ";
    var cmd''' := cmd'' + args;
    var cmd'''' := cmd''' + " -o ";
    cmd'''' + obj
  }

  const DirectoryKey: Bytes := "\t\"directory\": \""
  const CommandKey: Bytes := "\t\"command\": \""
  const FileKey: Bytes := "\t\"file\": \""
  const FieldEnd: Bytes := "\",\n"
  const LastFieldEnd: Bytes := "\"\n"
  const FirstOpen: Bytes := "{"
  const NextOpen: Bytes := ",\n{\n"
  const Close: Bytes := "}"

  /** The first part of a Makefile target name. */
  function ModePrefix(mode: RType): Bytes {
    match mode
    case Build => "build_"
    case BuildRun => "build_run_"
    case Run => "run_"
    case Clear => "clear_"
    case Debug => "debug_"
    case Task => "task_"
    case _ => "cbuild_"
  }

  /** The modes whose target name ends in the toolchain id. */
  predicate ToolchainMode(mode: RType) {
    mode == Build || mode == BuildRun || mode == Run || mode == Debug || mode == Clear
  }

  /** The second part: the toolchain id, task id, or `random` (the six
      characters of `get_random_string(6)`). */
  function ModeId(mode: RType, args: map<Bytes, Bytes>, random: Bytes): Bytes
    requires ToolchainMode(mode) ==> "toolchain_id" in args
    requires mode == Task ==> "task_id" in args
  {
    if ToolchainMode(mode) then args["toolchain_id"]
    else if mode == Task then args["task_id"]
    else random
  }

  /** The recipe lines: each logged command after a tab. */
  function Recipe(log: seq<Bytes>): Bytes
    decreases |log|
  {
    if log == [] then [] else Recipe(log[..|log| - 1]) + "\t" + log[|log| - 1] + "\n"
  }

  const NewLine: Bytes := "\n"

  /** The line that opens a target. */
  function TargetLine(name: Bytes): Bytes {
    NewLine + name + ":\n"
  }

  /** What one `makefile_out::generate` appends. */
  function MakeBlock(name: Bytes, log: seq<Bytes>): Bytes {
    TargetLine(name) + Recipe(log) + NewLine
  }

  /** The recipe of a longer log extends the recipe of a shorter one. */
  lemma {:induction false} RecipeAppend(a: seq<Bytes>, b: seq<Bytes>)
    ensures Recipe(a + b) == Recipe(a) + Recipe(b)
    decreases |b|
  {
    if b == [] {
      assert a + b == a;
    } else {
      var b' := b[..|b| - 1];
      assert (a + b)[..|a + b| - 1] == a + b';
      RecipeAppend(a, b');
    }
  }

  /** Each command of the log is one recipe line. */
  lemma {:induction false} RecipeLength(log: seq<Bytes>)
    ensures |Recipe(log)| == 2 * |log| + Total(log)
    decreases |log|
  {
    if log != [] {
      RecipeLength(log[..|log| - 1]);
    }
  }

  /** The total length of the commands. */
  function Total(log: seq<Bytes>): nat
    decreases |log|
  {
    if log == [] then 0 else Total(log[..|log| - 1]) + |log[|log| - 1]|
  }

  /** A BUILD of toolchain "run_x" and a BUILD_RUN of toolchain "x" write a
      target of the same name. */
  lemma ModeNamesCollide(random: Bytes)
    ensures ModePrefix(Build) + ModeId(Build, map["toolchain_id" := "run_x"], random)
            == ModePrefix(BuildRun) + ModeId(BuildRun, map["toolchain_id" := "x"], random)
  {
  }

  /** Within one mode, the target name tells the id. */
  lemma NameTellsId(mode: RType, a: map<Bytes, Bytes>, b: map<Bytes, Bytes>, ra: Bytes, rb: Bytes)
    requires ToolchainMode(mode) ==> "toolchain_id" in a && "toolchain_id" in b
    requires mode == Task ==> "task_id" in a && "task_id" in b
    requires ModePrefix(mode) + ModeId(mode, a, ra) == ModePrefix(mode) + ModeId(mode, b, rb)
    ensures ModeId(mode, a, ra) == ModeId(mode, b, rb)
  {
    var p := ModePrefix(mode);
    assert (p + ModeId(mode, a, ra))[|p|..] == ModeId(mode, a, ra);
    assert (p + ModeId(mode, b, rb))[|p|..] == ModeId(mode, b, rb);
  }

  /** The Makefile: whether the file exists, and its text. */
  class MakefileOut {
    var present: bool
    var content: Bytes

    constructor (present: bool, content: Bytes)
      ensures this.present == present && this.content == content
    {
      this.present := present;
      this.content := content;
    }

    /** `makefile_out::generate`: creates the file if needed and appends one
        target whose recipe is the command log. */
    method Generate(mode: RType, args: map<Bytes, Bytes>, log: seq<Bytes>, random: Bytes)
      requires ToolchainMode(mode) ==> "toolchain_id" in args
      requires mode == Task ==> "task_id" in args
      modifies this
      ensures present
      ensures content == (if old(present) then old(content) else [])
                         + MakeBlock(ModePrefix(mode) + ModeId(mode, args, random), log)
    {
      if !present {
        present := true;
        content := [];
      }
      var name := ModePrefix(mode) + ModeId(mode, args, random);
      ghost var base := content;
      content := content + TargetLine(name);
      AppendRecipe(log);
      content := content + NewLine;
      assert content == base + MakeBlock(name, log);
    }

    /** The loop over the command log. */
    method AppendRecipe(log: seq<Bytes>)
      modifies this`content
      ensures content == old(content) + Recipe(log)
    {
      for i := 0 to |log|
        invariant content == old(content) + Recipe(log[..i])
      {
        assert log[..i + 1][..i] == log[..i];
        assert Recipe(log[..i + 1]) == Recipe(log[..i]) + "\t" + log[i] + "\n";
        content := content + "\t" + log[i] + "\n";
      }
      assert log[..|log|] == log;
    }
  }

  /** One entry of compile_commands.json. */
  datatype Cmd = Cmd(basePath: Bytes, cmd: Bytes, file: Bytes, inFile: bool)

  /** The entries for the toolchain's (source, object) list. */
  function Commands(files: seq<(Bytes, Bytes)>, compiler: Bytes, targs: Bytes, dir: Bytes): (r: seq<Cmd>)
    ensures |r| == |files|
    decreases |files|
  {
    if files == [] then []
    else
      var f := files[|files| - 1];
      Commands(files[..|files| - 1], compiler, targs, dir) + [Cmd(dir, EvalCmd(f.0, f.1, compiler, targs), f.0, false)]
  }

  /** The text of one entry; the first one opens with "{" alone. */
  function EntryText(dir: Bytes, e: Cmd, first: bool): Bytes {
    EntryWith(dir, EscapeJson(e.cmd), e.file, first)
  }

  /** The same with the command already escaped. */
  function EntryWith(dir: Bytes, cmd: Bytes, file: Bytes, first: bool): Bytes {
    (if first then FirstOpen else NextOpen)
    + DirectoryKey + dir + FieldEnd
    + CommandKey + cmd + FieldEnd
    + FileKey + file + LastFieldEnd
    + Close
  }

  function Entries(dir: Bytes, data: seq<Cmd>): Bytes
    decreases |data|
  {
    if data == [] then [] else Entries(dir, data[..|data| - 1]) + EntryText(dir, data[|data| - 1], |data| == 1)
  }

  /** A new compile_commands.json. */
  function CcjText(dir: Bytes, data: seq<Cmd>): Bytes {
    "[\n" + Entries(dir, data) + "\n]"
  }

  /** The command of every entry decodes to the compile command. */
  lemma CommandDecodes(files: seq<(Bytes, Bytes)>, compiler: Bytes, targs: Bytes, dir: Bytes, i: nat)
    requires i < |files|
    ensures var e := Commands(files, compiler, targs, dir)[i];
            Unescape(EscapeJson(e.cmd)) == Some(EvalCmd(files[i].0, files[i].1, compiler, targs))
            && e.file == files[i].0
    decreases |files|
  {
    if i < |files| - 1 {
      CommandDecodes(files[..|files| - 1], compiler, targs, dir, i);
    }
    UnescapeEscape(Commands(files, compiler, targs, dir)[i].cmd);
  }

  /** compile_commands.json: whether it present, and its text. */
  class CcjOut {
    var present: bool
    var content: Bytes

    constructor (present: bool, content: Bytes)
      ensures this.present == present && this.content == content
    {
      this.present := present;
      this.content := content;
    }

    /** `ccj_out::generate` for the toolchain with the given (source,
        object) list, first compiler command and compile arguments, in the
        directory `dir`. Outside a BUILD run, or for the toolchain "all",
        nothing happens; `ran` tells whether the generator went on. */
    method Generate(mode: RType, args: map<Bytes, Bytes>, files: seq<(Bytes, Bytes)>,
                    compiler: Bytes, targs: Bytes, dir: Bytes) returns (ran: bool)
      requires mode == Build ==> "toolchain_id" in args
      modifies this
      ensures ran <==> mode == Build && args["toolchain_id"] != "all"
      ensures !ran || old(present) ==> present == old(present) && content == old(content)
      ensures ran && !old(present) ==> present && content == CcjText(dir, Commands(files, compiler, targs, dir))
    {
      if mode != Build {
        return false;
      }
      if args["toolchain_id"] == "all" {
        return false;
      }
      ran := true;
      var data := BuildCommands(files, compiler, targs, dir);
      if !present {
        present := true;
        var text := WriteEntries(dir, data);
        content := "[\n" + text + "\n]";
      }
    }
  }

  /** The loop that fills the entry list. */
  method BuildCommands(files: seq<(Bytes, Bytes)>, compiler: Bytes, targs: Bytes, dir: Bytes)
    returns (data: seq<Cmd>)
    ensures data == Commands(files, compiler, targs, dir)
  {
    data := [];
    for i := 0 to |files|
      invariant data == Commands(files[..i], compiler, targs, dir)
    {
      assert files[..i + 1][..i] == files[..i];
      data := data + [Cmd(dir, EvalCmd(files[i].0, files[i].1, compiler, targs), files[i].0, false)];
    }
    assert files[..|files|] == files;
  }

  /** The loop that writes the entries of a new file. */
  method WriteEntries(dir: Bytes, data: seq<Cmd>) returns (text: Bytes)
    ensures text == Entries(dir, data)
  {
    text := [];
    for j := 0 to |data|
      invariant text == Entries(dir, data[..j])
    {
      assert data[..j + 1][..j] == data[..j];
      var cmd := PreprocessJsonStr(data[j].cmd);
      text := text + EntryWith(dir, cmd, data[j].file, j == 0);
    }
    assert data[..|data|] == data;
  }
}
