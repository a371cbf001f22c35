/** Shell-command helpers of pkg/cmds/cmds.go: `strings.Split` around the exec call. */
module Cmds {
  import opened Results

  /** Go's `strings.Split(s, string(sep))` for a one-character separator. */
  function Split(s: string, sep: char): (parts: seq<string>)
    ensures |parts| >= 1
    ensures forall i :: 0 <= i < |parts| ==> sep !in parts[i]
    decreases |s|
  {
    if |s| == 0 then [""]
    else
      var rest := Split(s[1..], sep);
      if s[0] == sep then [""] + rest
      else [[s[0]] + rest[0]] + rest[1..]
  }

  /** Go's `strings.Join(parts, string(sep))`. */
  function Join(parts: seq<string>, sep: char): string
    decreases |parts|
  {
    if |parts| == 0 then ""
    else if |parts| == 1 then parts[0]
    else parts[0] + [sep] + Join(parts[1..], sep)
  }

  /** Number of occurrences of `c` in `s`. */
  function Occurrences(s: string, c: char): nat
    decreases |s|
  {
    if |s| == 0 then 0 else (if s[0] == c then 1 else 0) + Occurrences(s[1..], c)
  }

  /** Joining the parts of a split gives back the input. */
  lemma {:induction false} JoinSplit(s: string, sep: char)
    ensures Join(Split(s, sep), sep) == s
    decreases |s|
  {
    if |s| > 0 {
      JoinSplit(s[1..], sep);
      var rest := Split(s[1..], sep);
      if s[0] == sep {
        assert Split(s, sep) == [""] + rest;
        assert s == [sep] + s[1..];
      } else {
        var parts := Split(s, sep);
        assert parts == [[s[0]] + rest[0]] + rest[1..];
        if |rest| == 1 {
          assert s == [s[0]] + rest[0];
        } else {
          assert parts[1..] == rest[1..];
          assert Join(rest, sep) == rest[0] + [sep] + Join(rest[1..], sep);
          assert s == [s[0]] + (rest[0] + [sep] + Join(rest[1..], sep));
        }
      }
    }
  }

  /** A string free of `sep` stays in one piece at the front of a split. */
  lemma {:induction false} SplitPrefix(a: string, t: string, sep: char)
    requires sep !in a
    ensures Split(a + t, sep) == [a + Split(t, sep)[0]] + Split(t, sep)[1..]
    decreases |a|
  {
    if |a| > 0 {
      SplitPrefix(a[1..], t, sep);
      assert (a + t)[1..] == a[1..] + t;
      assert (a + t)[0] == a[0];
      assert [a[0]] + (a[1..] + Split(t, sep)[0]) == a + Split(t, sep)[0];
    } else {
      assert a == [];
      assert a + t == t;
      assert a + Split(t, sep)[0] == Split(t, sep)[0];
      assert Split(t, sep) == [Split(t, sep)[0]] + Split(t, sep)[1..];
    }
  }

  /** Splitting the join of separator-free parts gives back the parts. */
  lemma {:induction false} SplitJoin(parts: seq<string>, sep: char)
    requires |parts| >= 1
    requires forall i :: 0 <= i < |parts| ==> sep !in parts[i]
    ensures Split(Join(parts, sep), sep) == parts
    decreases |parts|
  {
    var a := parts[0];
    if |parts| == 1 {
      SplitPrefix(a, "", sep);
      assert a + "" == a;
    } else {
      var j := Join(parts[1..], sep);
      SplitJoin(parts[1..], sep);
      SplitPrefix(a, [sep] + j, sep);
      assert Split([sep] + j, sep) == [""] + Split(j, sep) by {
        assert ([sep] + j)[1..] == j;
      }
      assert a + ([sep] + j) == parts[0] + [sep] + j;
      assert a + "" == a;
    }
  }

  /** A split has one more part than the input has separators. */
  lemma {:induction false} SplitCount(s: string, sep: char)
    ensures |Split(s, sep)| == Occurrences(s, sep) + 1
    decreases |s|
  {
    if |s| > 0 {
      SplitCount(s[1..], sep);
    }
  }

  /** Output ending in the separator splits into a last part that is empty. */
  lemma {:induction false} SplitTrailing(s: string, sep: char)
    requires |s| > 0 && s[|s| - 1] == sep
    ensures Split(s, sep)[|Split(s, sep)| - 1] == ""
    decreases |s|
  {
    if |s| > 1 {
      var rest := Split(s[1..], sep);
      SplitTrailing(s[1..], sep);
      SplitCount(s[1..], sep);
      OccurrencesOfLast(s[1..], sep);
      assert |rest| >= 2;
    }
  }

  lemma {:induction false} OccurrencesOfLast(s: string, c: char)
    requires |s| > 0 && s[|s| - 1] == c
    ensures Occurrences(s, c) >= 1
    decreases |s|
  {
    if |s| > 1 && s[0] != c {
      OccurrencesOfLast(s[1..], c);
    }
  }

  /** What `exec.Command(...).Run()` / `.Output()` reported: the output, or the error. */
  datatype Exec = ExecOk(output: string) | ExecFailed(message: string)

  /** The program and arguments a command line is split into, as RunCmd passes them to exec. */
  function CommandParts(cmd: string): (r: (string, seq<string>))
    ensures ' ' !in r.0
    ensures Join([r.0] + r.1, ' ') == cmd
    ensures forall i :: 0 <= i < |r.1| ==> ' ' !in r.1[i]
  {
    var parts := Split(cmd, ' ');
    JoinSplit(cmd, ' ');
    assert parts == [parts[0]] + parts[1..];
    (parts[0], parts[1..])
  }

  /** RunCmd: runs the split command; a failure is wrapped with a fixed prefix. */
  function RunCmd(cmd: string, exec: (string, seq<string>) -> Exec): (r: Result<()>)
    ensures r.Ok? <==> exec(CommandParts(cmd).0, CommandParts(cmd).1).ExecOk?
    ensures r.Err? ==> r.error == "error running shell command:" + exec(CommandParts(cmd).0, CommandParts(cmd).1).message
  {
    var (prog, args) := CommandParts(cmd);
    match exec(prog, args)
    case ExecOk(_) => Ok(())
    case ExecFailed(m) => Err("error running shell command:" + m)
  }

  /** RunCmdWithResult: the command's output split into newline-separated lines, or the exec error. */
  function RunCmdWithResult(cmd: string, exec: (string, seq<string>) -> Exec): (r: Result<seq<string>>)
    ensures r.Err? <==> exec(CommandParts(cmd).0, CommandParts(cmd).1).ExecFailed?
    ensures r.Err? ==> r.error == exec(CommandParts(cmd).0, CommandParts(cmd).1).message
    ensures r.Ok? ==> var out := exec(CommandParts(cmd).0, CommandParts(cmd).1).output;
      Join(r.value, '\n') == out && |r.value| == Occurrences(out, '\n') + 1
  {
    var (prog, args) := CommandParts(cmd);
    match exec(prog, args)
    case ExecOk(out) =>
      JoinSplit(out, '\n');
      SplitCount(out, '\n');
      Ok(Split(out, '\n'))
    case ExecFailed(m) => Err(m)
  }
}
