/**
 * The debugger command script that `main` builds, as a sequence of abstract
 * commands, and what `patched_pids` holds once the debugger has run it.
 */
module DebuggerScript {

  const PluginsDir: string := "/System/Library/Frameworks/QuickLookUI.framework/Versions/A/PlugIns"
  const ImagePluginBinary: string := PluginsDir + "/Image.qldisplay/Contents/MacOS/Image"
  /** The mode `dlopen` is called with (RTLD_NOW). */
  const DlopenMode: int := 2

  datatype Command =
    | ImportScript(path: string)         // command script import '<path>'
    | Attach(pid: int)                   // attach <pid>
    | Dlopen(path: string, mode: int)    // p (void *)dlopen("<path>", <mode>);
    | RunLldbScript                      // script -- import fix_quicklook; fix_quicklook.lldb_script()
    | Continue                           // continue
    | Detach                             // detach
    | RunPrintStatus(pids: seq<int>)     // script -- import fix_quicklook; fix_quicklook.print_status(<pids>)

  /** The commands issued for one process. */
  function PidBlock(pid: int): seq<Command> {
    [Attach(pid), Dlopen(ImagePluginBinary, DlopenMode), RunLldbScript, Continue, Detach]
  }

  /** One block per pid, in the order of `pids`. */
  function Blocks(pids: seq<int>): seq<Command> {
    if pids == [] then [] else Blocks(pids[..|pids| - 1]) + PidBlock(pids[|pids| - 1])
  }

  /** The pids attached to, in the order the commands attach to them. */
  function AttachOrder(cmds: seq<Command>): seq<int> {
    if cmds == [] then []
    else (if cmds[0].Attach? then [cmds[0].pid] else []) + AttachOrder(cmds[1..])
  }

  /** Block i of the script occupies commands 5i .. 5i+4 of Blocks. */
  lemma {:induction false} BlocksLayout(pids: seq<int>)
    ensures |Blocks(pids)| == 5 * |pids|
    ensures forall i :: 0 <= i < |pids| ==> Blocks(pids)[5 * i .. 5 * i + 5] == PidBlock(pids[i])
  {
    if pids != [] {
      var init := pids[..|pids| - 1];
      BlocksLayout(init);
      forall i | 0 <= i < |pids|
        ensures Blocks(pids)[5 * i .. 5 * i + 5] == PidBlock(pids[i])
      {
        if i < |pids| - 1 {
          assert pids[i] == init[i];
          assert Blocks(pids)[5 * i .. 5 * i + 5] == Blocks(init)[5 * i .. 5 * i + 5];
        }
      }
    }
  }

  lemma {:induction false} AttachOrderAppend(a: seq<Command>, b: seq<Command>)
    ensures AttachOrder(a + b) == AttachOrder(a) + AttachOrder(b)
  {
    if a == [] {
      assert a + b == b;
    } else {
      var head := if a[0].Attach? then [a[0].pid] else [];
      assert (a + b)[0] == a[0];
      assert (a + b)[1..] == a[1..] + b;
      AttachOrderAppend(a[1..], b);
      calc {
        AttachOrder(a + b);
        head + AttachOrder(a[1..] + b);
        head + (AttachOrder(a[1..]) + AttachOrder(b));
        (head + AttachOrder(a[1..])) + AttachOrder(b);
      }
    }
  }

  lemma AttachOrderOfBlock(pid: int)
    ensures AttachOrder(PidBlock(pid)) == [pid]
  {
    var block := PidBlock(pid);
    assert AttachOrder(block[4..]) == [] by { assert block[4..][1..] == []; }
    assert AttachOrder(block[3..]) == [] by { assert block[3..][1..] == block[4..]; }
    assert AttachOrder(block[2..]) == [] by { assert block[2..][1..] == block[3..]; }
    assert AttachOrder(block[1..]) == [] by { assert block[1..][1..] == block[2..]; }
  }

  /** The blocks attach to every pid exactly once, in order. */
  lemma {:induction false} BlocksAttachInOrder(pids: seq<int>)
    ensures AttachOrder(Blocks(pids)) == pids
  {
    if pids != [] {
      var init := pids[..|pids| - 1];
      BlocksAttachInOrder(init);
      AttachOrderAppend(Blocks(init), PidBlock(pids[|pids| - 1]));
      AttachOrderOfBlock(pids[|pids| - 1]);
    }
  }

  /** The whole script for the pids found, with `scriptPath` being this script's own path. */
  function Script(scriptPath: string, pids: seq<int>): seq<Command> {
    [ImportScript(scriptPath)] + Blocks(pids) + [RunPrintStatus(pids)]
  }

  /**
   * The script starts with one import, has block i at commands 1+5i .. 5+5i,
   * ends with one status report over the whole list, and attaches to the pids
   * in order.
   */
  lemma ScriptLayout(scriptPath: string, pids: seq<int>)
    ensures |Script(scriptPath, pids)| == 5 * |pids| + 2
    ensures Script(scriptPath, pids)[0] == ImportScript(scriptPath)
    ensures Script(scriptPath, pids)[5 * |pids| + 1] == RunPrintStatus(pids)
    ensures forall i :: 0 <= i < |pids| ==> Script(scriptPath, pids)[1 + 5 * i .. 6 + 5 * i] == PidBlock(pids[i])
    ensures AttachOrder(Script(scriptPath, pids)) == pids
  {
    var script := Script(scriptPath, pids);
    BlocksLayout(pids);
    forall i | 0 <= i < |pids|
      ensures script[1 + 5 * i .. 6 + 5 * i] == PidBlock(pids[i])
    {
      assert script[1 + 5 * i .. 6 + 5 * i] == Blocks(pids)[5 * i .. 5 * i + 5];
    }
    AttachOrderAppend([ImportScript(scriptPath)], Blocks(pids));
    AttachOrderAppend([ImportScript(scriptPath)] + Blocks(pids), [RunPrintStatus(pids)]);
    BlocksAttachInOrder(pids);
  }

  /**
   * The script-building loop of `main`: an import of the script itself, one
   * attach … detach block per pid in order, and a final `print_status` call
   * with the whole pid list.
   */
  method BuildScript(scriptPath: string, pids: seq<int>) returns (script: seq<Command>)
    ensures script == Script(scriptPath, pids)
    ensures |script| == 5 * |pids| + 2
    ensures script[0] == ImportScript(scriptPath) && script[|script| - 1] == RunPrintStatus(pids)
    ensures forall i :: 0 <= i < |pids| ==> script[1 + 5 * i .. 6 + 5 * i] == PidBlock(pids[i])
    ensures AttachOrder(script) == pids
  {
    script := [ImportScript(scriptPath)];
    for i := 0 to |pids|
      invariant script == [ImportScript(scriptPath)] + Blocks(pids[..i])
    {
      assert pids[..i + 1][..i] == pids[..i];
      script := script + PidBlock(pids[i]);
    }
    assert pids[..|pids|] == pids;
    script := script + [RunPrintStatus(pids)];
    ScriptLayout(scriptPath, pids);
  }

  predicate Distinct(s: seq<int>) {
    forall i, j :: 0 <= i < j < |s| ==> s[i] != s[j]
  }

  /**
   * `patched_pids` after the debugger has run the blocks: a block's pid is
   * appended exactly when its `lldb_script` run completed.
   */
  function Recorded(pids: seq<int>, completed: seq<bool>): seq<int>
    requires |completed| == |pids|
  {
    if pids == [] then []
    else
      Recorded(pids[..|pids| - 1], completed[..|pids| - 1])
      + (if completed[|pids| - 1] then [pids[|pids| - 1]] else [])
  }

  /**
   * Running block i appends its pid to what blocks 0 .. i-1 recorded (after
   * whatever `before` already held) exactly when it completes.
   */
  lemma RecordedStep(before: seq<int>, pids: seq<int>, completed: seq<bool>, ok: bool)
    requires |completed| < |pids|
    ensures before + Recorded(pids[..|completed| + 1], completed + [ok])
         == (before + Recorded(pids[..|completed|], completed)) + (if ok then [pids[|completed|]] else [])
  {
    var i := |completed|;
    assert pids[..i + 1][..i] == pids[..i];
    assert (completed + [ok])[..i] == completed;
    var earlier := Recorded(pids[..i], completed);
    var step := if ok then [pids[i]] else [];
    assert Recorded(pids[..i + 1], completed + [ok]) == earlier + step;
    AppendAssoc(before, earlier, step);
  }

  lemma AppendAssoc(a: seq<int>, b: seq<int>, c: seq<int>)
    ensures a + (b + c) == (a + b) + c
  {
  }

  /** As many pids are recorded as were found exactly when every run completed. */
  lemma {:induction false} RecordedCountIff(pids: seq<int>, completed: seq<bool>)
    requires |completed| == |pids|
    ensures |Recorded(pids, completed)| <= |pids|
    ensures |Recorded(pids, completed)| == |pids| <==> forall i :: 0 <= i < |pids| ==> completed[i]
  {
    if pids != [] {
      var n := |pids| - 1;
      RecordedCountIff(pids[..n], completed[..n]);
      if forall i :: 0 <= i < |pids| ==> completed[i] {
        assert forall i :: 0 <= i < n ==> completed[..n][i];
      }
    }
  }

  /** With distinct pids, a pid is recorded exactly when its own run completed. */
  lemma {:induction false} RecordedMembership(pids: seq<int>, completed: seq<bool>, k: int)
    requires |completed| == |pids| && Distinct(pids) && 0 <= k < |pids|
    ensures pids[k] in Recorded(pids, completed) <==> completed[k]
  {
    var n := |pids| - 1;
    RecordedSubset(pids[..n], completed[..n]);
    if k < n {
      RecordedMembership(pids[..n], completed[..n], k);
      assert pids[..n][k] == pids[k];
    } else {
      assert forall j :: 0 <= j < n ==> pids[..n][j] != pids[n];
      assert pids[n] !in pids[..n];
    }
  }

  /** With distinct pids, every per-pid mark of the report is that pid's own outcome. */
  lemma RecordedMarks(pids: seq<int>, completed: seq<bool>)
    requires |completed| == |pids| && Distinct(pids)
    ensures forall i :: 0 <= i < |pids| ==> (pids[i] in Recorded(pids, completed) <==> completed[i])
  {
    forall i | 0 <= i < |pids|
      ensures pids[i] in Recorded(pids, completed) <==> completed[i]
    {
      RecordedMembership(pids, completed, i);
    }
  }

  lemma {:induction false} RecordedSubset(pids: seq<int>, completed: seq<bool>)
    requires |completed| == |pids|
    ensures forall p :: p in Recorded(pids, completed) ==> p in pids
  {
    if pids != [] {
      var n := |pids| - 1;
      RecordedSubset(pids[..n], completed[..n]);
      assert forall p :: p in pids[..n] ==> p in pids;
    }
  }
}
