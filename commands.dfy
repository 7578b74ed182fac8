/** `cbuild_cmd_to_sb`: a command (a list of C-string arguments) rendered
    as one line, arguments separated by single spaces, and an argument that
    contains a space wrapped in single quotes. */
module Commands {
  import opened Bytes
  import opened Seqs
  import opened StringView

  /** How one argument is written. */
  function Quoted(arg: Bytes): (r: Bytes)
    ensures ' ' !in arg ==> r == arg
    ensures ' ' in arg ==> r == ['\''] + arg + ['\''] && |r| == |arg| + 2
  {
    if !Contains(arg, ' ') then arg else ['\''] + arg + ['\'']
  }

  /** The arguments' written forms joined by single spaces. */
  function CmdLine(cmd: seq<Bytes>): Bytes
  {
    if cmd == [] then []
    else if |cmd| == 1 then Quoted(cmd[0])
    else CmdLine(cmd[..|cmd| - 1]) + [' '] + Quoted(cmd[|cmd| - 1])
  }

  method CmdToSb(cmd: seq<Bytes>) returns (sb: Bytes)
    ensures sb == CmdLine(cmd)
  {
    sb := [];
    if |cmd| < 1 {
      return;
    }
    for i := 0 to |cmd|
      invariant i < |cmd| ==> sb == Written(cmd, i)
      invariant i == |cmd| ==> sb == CmdLine(cmd)
    {
      sb := AppendArg(sb, cmd[i]);
      CmdLineStep(cmd, i);
      if i + 1 == |cmd| {
        assert cmd[..i + 1] == cmd;
      }
      if i < |cmd| - 1 {
        sb := sb + [' '];
      }
    }
  }

  /** What the loop has written before argument `i`: the first `i`
      arguments and the space after them. */
  function Written(cmd: seq<Bytes>, i: nat): Bytes
    requires i <= |cmd|
  {
    if i == 0 then [] else CmdLine(cmd[..i]) + [' ']
  }

  /** The write of one argument, quoted when it contains a space. */
  method AppendArg(sb0: Bytes, arg: Bytes) returns (sb: Bytes)
    ensures sb == sb0 + Quoted(arg)
  {
    if !Contains(arg, ' ') {
      sb := sb0 + arg;
    } else {
      sb := sb0 + ['\''] + arg + ['\''];
      ConcatAssoc(sb0 + ['\''], arg, ['\'']);
      ConcatAssoc(sb0, ['\''], arg + ['\'']);
    }
  }

  lemma CmdLineStep(cmd: seq<Bytes>, i: nat)
    requires i < |cmd|
    ensures CmdLine(cmd[..i + 1]) == Written(cmd, i) + Quoted(cmd[i])
  {
    var c := cmd[..i + 1];
    assert c[..i] == cmd[..i];
    assert c[i] == cmd[i];
    if i == 0 {
      assert CmdLine(c) == Quoted(cmd[0]);
    }
  }

  /** Splitting the text at spaces from the right. */
  function SplitSpacesRight(s: Bytes): (r: seq<Bytes>)
    ensures |r| >= 1
    decreases |s|
  {
    var k := RFind(s, ' ');
    if k < 0 then [s] else SplitSpacesRight(s[..k]) + [s[k + 1..]]
  }

  /** The last space of `s == a + " " + b` is the one in the middle when
      `b` has none. */
  lemma LastSpace(s: Bytes, a: Bytes, b: Bytes)
    requires ' ' !in b && s == a + [' '] + b
    ensures RFind(s, ' ') == |a|
  {
    forall m | |a| < m < |s| ensures s[m] != ' ' {
      assert s[m] == b[m - |a| - 1];
    }
    RFindIsLast(s, ' ', |a|);
  }

  lemma SplitAtLast(s: Bytes, a: Bytes, b: Bytes)
    requires ' ' !in b && s == a + [' '] + b
    ensures SplitSpacesRight(s) == SplitSpacesRight(a) + [b]
  {
    LastSpace(s, a, b);
    assert s[..|a|] == a;
    assert s[|a| + 1..] == b;
  }

  /** For arguments without spaces the line splits back into exactly the
      arguments: nothing is lost or merged. */
  lemma {:induction false} CmdLineSplits(cmd: seq<Bytes>)
    requires cmd != [] && forall i :: 0 <= i < |cmd| ==> ' ' !in cmd[i]
    ensures SplitSpacesRight(CmdLine(cmd)) == cmd
    decreases |cmd|
  {
    if |cmd| == 1 {
      assert CmdLine(cmd) == cmd[0];
    } else {
      var front := cmd[..|cmd| - 1];
      var last := cmd[|cmd| - 1];
      var head := CmdLine(front);
      var line := CmdLine(cmd);
      assert ' ' !in last;
      assert line == head + [' '] + last;
      SplitAtLast(line, head, last);
      CmdLineSplits(front);
      SliceSnoc(cmd, |cmd| - 1);
    }
  }
}
