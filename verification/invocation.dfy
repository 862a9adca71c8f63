/**
 * The ShellCheck invocation (`ShellCheck._build_cmd`): the executable, the
 * flags that select gcc-style output read from standard input, then one
 * `-e <code>` pair per suppressed code, in the order of the codes.
 */
module Invocation {

  /** `-f gcc` selects the one-diagnostic-per-line output format and `-`
      makes ShellCheck read the script from standard input. */
  const FixedFlags: seq<string> := ["-f", "gcc", "-"]

  /** The `-e <code>` pairs, in code order. */
  function SuppressFlags(codes: seq<string>): seq<string> {
    if codes == [] then [] else ["-e", codes[0]] + SuppressFlags(codes[1..])
  }

  /** The full command line for `path` with `codes` suppressed. */
  function CommandLine(path: string, codes: seq<string>): seq<string> {
    [path] + FixedFlags + SuppressFlags(codes)
  }

  /** Appending one code appends one `-e` pair: the loop's step. */
  lemma {:induction false} SuppressFlagsSnoc(codes: seq<string>, code: string)
    ensures SuppressFlags(codes + [code]) == SuppressFlags(codes) + ["-e", code]
  {
    if codes == [] {
      assert codes + [code] == [code];
    } else {
      assert (codes + [code])[1..] == codes[1..] + [code];
      SuppressFlagsSnoc(codes[1..], code);
    }
  }

  /** The pairs occupy exactly two slots per code: `-e` at even offsets and
      the code itself right after it. */
  lemma {:induction false} SuppressFlagsAt(codes: seq<string>)
    ensures |SuppressFlags(codes)| == 2 * |codes|
    ensures forall i :: 0 <= i < |codes| ==>
              SuppressFlags(codes)[2 * i] == "-e" && SuppressFlags(codes)[2 * i + 1] == codes[i]
  {
    if codes != [] {
      SuppressFlagsAt(codes[1..]);
      var rest := SuppressFlags(codes[1..]);
      forall i | 1 <= i < |codes|
        ensures SuppressFlags(codes)[2 * i] == "-e" && SuppressFlags(codes)[2 * i + 1] == codes[i]
      {
        assert SuppressFlags(codes)[2 * i] == rest[2 * (i - 1)];
        assert SuppressFlags(codes)[2 * i + 1] == rest[2 * (i - 1) + 1];
      }
    }
  }

  /** The shape of the command line: length `4 + 2n`, the executable and the
      three fixed flags first, then `-e` at `4 + 2i` and the i-th code at
      `5 + 2i`. */
  lemma CommandLineShape(path: string, codes: seq<string>)
    ensures |CommandLine(path, codes)| == 4 + 2 * |codes|
    ensures CommandLine(path, codes)[..4] == [path, "-f", "gcc", "-"]
    ensures forall i :: 0 <= i < |codes| ==>
              CommandLine(path, codes)[4 + 2 * i] == "-e" && CommandLine(path, codes)[5 + 2 * i] == codes[i]
  {
    SuppressFlagsAt(codes);
    var cmd := CommandLine(path, codes);
    forall i | 0 <= i < |codes|
      ensures cmd[4 + 2 * i] == "-e" && cmd[5 + 2 * i] == codes[i]
    {
      assert cmd[4 + 2 * i] == SuppressFlags(codes)[2 * i];
      assert cmd[5 + 2 * i] == SuppressFlags(codes)[2 * i + 1];
    }
  }

  /** Nothing is lost in the command line: the executable and every code, in
      order, can be read back from it. */
  lemma CommandLineInjective(path1: string, codes1: seq<string>, path2: string, codes2: seq<string>)
    requires CommandLine(path1, codes1) == CommandLine(path2, codes2)
    ensures path1 == path2 && codes1 == codes2
  {
    CommandLineShape(path1, codes1);
    CommandLineShape(path2, codes2);
    var cmd := CommandLine(path1, codes1);
    assert path1 == cmd[0] == path2;
    assert |codes1| == |codes2|;
    forall i | 0 <= i < |codes1| ensures codes1[i] == codes2[i] {
      assert codes1[i] == cmd[5 + 2 * i] == codes2[i];
    }
  }

  /** `_build_cmd`: starts from the executable and the fixed flags and
      extends the list with one `-e` pair per code. */
  method BuildCmd(path: string, codes: seq<string>) returns (cmd: seq<string>)
    ensures cmd == CommandLine(path, codes)
    ensures |cmd| == 4 + 2 * |codes| && cmd[..4] == [path, "-f", "gcc", "-"]
    ensures forall i :: 0 <= i < |codes| ==> cmd[4 + 2 * i] == "-e" && cmd[5 + 2 * i] == codes[i]
  {
    cmd := [path, "-f", "gcc", "-"];
    for k := 0 to |codes|
      invariant cmd == [path] + FixedFlags + SuppressFlags(codes[..k])
    {
      SuppressFlagsSnoc(codes[..k], codes[k]);
      assert codes[..k + 1] == codes[..k] + [codes[k]];
      cmd := cmd + ["-e", codes[k]];
    }
    assert codes[..|codes|] == codes;
    CommandLineShape(path, codes);
  }
}
