/**
 * The script as it runs inside the debugger: the module globals `target`,
 * `process` and `patched_pids`, and the functions that update them and the
 * attached process's memory. Each method is proved against the pure
 * description in module Patch.
 */
module LldbModule {
  import opened Outcomes
  import opened A64
  import opened Memory
  import opened Patch
  import DebuggerScript

  /** A debugged process: its pid, the addresses the debugger can write, and its memory. */
  class Process {
    const pid: int
    const writable: set<int>
    var memory: Memory

    constructor (pid: int, writable: set<int>, memory: Memory)
      ensures this.pid == pid && this.writable == writable && this.memory == memory
    {
      this.pid := pid;
      this.writable := writable;
      this.memory := memory;
    }
  }

  /** A debugger target: the symbols of its loaded images and the process it is attached to. */
  class Target {
    const symbols: SymbolTable
    const process: Process

    constructor (symbols: SymbolTable, process: Process)
      ensures this.symbols == symbols && this.process == process
    {
      this.symbols := symbols;
      this.process := process;
    }
  }

  /** The memory a patch step leaves: its result, or the memory it started from if it raised. */
  function MemoryAfter(r: Result<Memory, Error>, start: Memory): Memory {
    if r.Ok? then r.value else start
  }

  /** The exception a patch step raised, if any. */
  function FailureOf(r: Result<Memory, Error>): Option<Error> {
    if r.Ok? then None else Some(r.error)
  }

  /** Whether each target's `lldb_script` run completes, in order. */
  function BlockOutcomes(targets: seq<Target>): (r: seq<bool>)
    ensures |r| == |targets|
    ensures forall i :: 0 <= i < |targets| ==> (r[i] <==> Patchable(targets[i].symbols, targets[i].process.writable))
  {
    if targets == [] then []
    else
      var last := targets[|targets| - 1];
      BlockOutcomes(targets[..|targets| - 1]) + [Patchable(last.symbols, last.process.writable)]
  }

  /**
   * What `print_status` reports after the blocks of `RunPidBlocks` ran from an
   * empty `patched_pids`: the counts agree exactly when every target was
   * patchable, and with distinct pids each pid is marked OK exactly when its
   * own target was patchable.
   */
  lemma StatusReflectsPatchability(pids: seq<int>, targets: seq<Target>)
    requires |targets| == |pids|
    ensures |DebuggerScript.Recorded(pids, BlockOutcomes(targets))| == |pids|
        <==> forall i :: 0 <= i < |targets| ==> Patchable(targets[i].symbols, targets[i].process.writable)
    ensures DebuggerScript.Distinct(pids) ==> forall i :: 0 <= i < |pids| ==>
        (pids[i] in DebuggerScript.Recorded(pids, BlockOutcomes(targets))
         <==> Patchable(targets[i].symbols, targets[i].process.writable))
  {
    DebuggerScript.RecordedCountIff(pids, BlockOutcomes(targets));
    if DebuggerScript.Distinct(pids) {
      DebuggerScript.RecordedMarks(pids, BlockOutcomes(targets));
    }
  }

  /** One line of `print_status` output. */
  datatype StatusLine =
    | AllPatched(count: nat)          // "Success: <n> QuickLook processes patched."
    | NotAllPatched                   // "Failed to patch all QuickLook processes:"
    | PidResult(pid: int, ok: bool)   // "<pid>: [ OK ] Patched" or "<pid>: [FAIL] Failed to patch"

  /** Exit status that `print_status` asks the debugger to quit with. */
  const FailureExitCode: int := 1

  /** The module-level state of the script once the debugger has imported it. */
  class ScriptState {
    var target: Target?
    var process: Process?
    var patchedPids: seq<int>

    constructor ()
      ensures target == null && process == null && patchedPids == []
    {
      target := null;
      process := null;
      patchedPids := [];
    }

    /** `write_instruction`: store `insn` little-endian at `address` of the current process. */
    method WriteInstruction(address: int, insn: int) returns (failure: Option<Error>)
      requires process != null
      modifies process
      ensures var r := Patch.WriteInstruction(old(process.memory), process.writable, address, insn);
        process.memory == MemoryAfter(r, old(process.memory)) && failure == FailureOf(r)
    {
      var packed := PackLE32(insn);
      if packed.None? {
        return Some(WordOutOfRange(insn));
      }
      if !(Window(address) <= process.writable) {
        return Some(WriteFailed(address));
      }
      process.memory := Store(process.memory, address, packed.value);
      failure := None;
    }

    /** `patch_updateCornerRadius` on the current target and process. */
    method PatchUpdateCornerRadius() returns (failure: Option<Error>)
      requires target != null && process != null
      modifies process
      ensures var r := Patch.PatchUpdateCornerRadius(target.symbols, process.writable, old(process.memory));
        process.memory == MemoryAfter(r, old(process.memory)) && failure == FailureOf(r)
    {
      var found := GetSymbolAddress(target.symbols, UpdateCornerRadius);
      if found.Err? {
        return Some(found.error);
      }
      failure := WriteInstruction(found.value, RetX30);
    }

    /** `patch_enableBorder` on the current target and process. */
    method PatchEnableBorder() returns (failure: Option<Error>)
      requires target != null && process != null
      modifies process
      ensures var r := Patch.PatchEnableBorder(target.symbols, process.writable, old(process.memory));
        process.memory == MemoryAfter(r, old(process.memory)) && failure == FailureOf(r)
    {
      var enableBorder := GetSymbolAddress(target.symbols, EnableBorder);
      if enableBorder.Err? {
        return Some(enableBorder.error);
      }
      var disableBorder := GetSymbolAddress(target.symbols, DisableBorder);
      if disableBorder.Err? {
        return Some(disableBorder.error);
      }
      var jumpOffsetBytes := disableBorder.value - enableBorder.value;
      var jumpOffsetInsns := jumpOffsetBytes / 4;  // floor division, as Python's `//`
      // The source's own shift and OR, kept on purpose; the ensures proves the word equal to `JumpWord`.
      var jumpInsn := BitOr(ShiftLeft(BranchOpcode, Imm26Width), SignExtend(jumpOffsetInsns, Imm26Width));
      failure := WriteInstruction(enableBorder.value, jumpInsn);
    }

    /**
     * `lldb_script`: take the debugger's selected target and its process,
     * apply both patches, and record the pid only if neither raised. A raise
     * leaves earlier writes in place.
     */
    method LldbScript(selected: Target) returns (failure: Option<Error>)
      modifies this, selected.process
      ensures target == selected && process == selected.process
      ensures var run := Patch.LldbScript(selected.symbols, selected.process.writable, old(selected.process.memory));
        selected.process.memory == run.memory && failure == run.failure
      ensures failure.None? <==> Patchable(selected.symbols, selected.process.writable)
      ensures patchedPids == if failure.None? then old(patchedPids) + [selected.process.pid] else old(patchedPids)
    {
      LldbScriptCompletesIff(selected.symbols, selected.process.writable, selected.process.memory);
      target := selected;
      process := target.process;
      failure := PatchUpdateCornerRadius();
      if failure.Some? {
        return;
      }
      failure := PatchEnableBorder();
      if failure.Some? {
        return;
      }
      var pid := process.pid;
      patchedPids := patchedPids + [pid];
    }

    /**
     * The `script -- ... lldb_script()` command of one attach block, seen from
     * the driver: whether the run completed, and the pid it recorded if so.
     */
    method RunPidBlock(selected: Target) returns (ok: bool)
      modifies this, selected.process
      ensures ok <==> Patchable(selected.symbols, selected.process.writable)
      ensures selected.process.memory
           == Patch.LldbScript(selected.symbols, selected.process.writable, old(selected.process.memory)).memory
      ensures patchedPids == old(patchedPids) + if ok then [selected.process.pid] else []
    {
      var failure := LldbScript(selected);
      ok := failure.None?;
    }

    /**
     * Block i of the generated script, as the driver sees it: run
     * `lldb_script` on `targets[i]`, which extends what blocks 0 .. i-1
     * recorded after `before` by this block's outcome.
     */
    method RunBlockAt(pids: seq<int>, targets: seq<Target>, i: nat, ghost before: seq<int>)
      requires |targets| == |pids| && i < |targets| && targets[i].process.pid == pids[i]
      requires patchedPids == before + DebuggerScript.Recorded(pids[..i], BlockOutcomes(targets[..i]))
      modifies this, targets[i].process
      ensures targets[i].process.memory
           == Patch.LldbScript(targets[i].symbols, targets[i].process.writable, old(targets[i].process.memory)).memory
      ensures patchedPids == before + DebuggerScript.Recorded(pids[..i + 1], BlockOutcomes(targets[..i + 1]))
    {
      var ok := RunPidBlock(targets[i]);
      assert targets[..i + 1][..i] == targets[..i];
      DebuggerScript.RecordedStep(before, pids, BlockOutcomes(targets[..i]), ok);
    }

    /**
     * The `lldb_script` calls of the generated script, one per attach block in
     * order: `targets[i]` is the target selected after `attach pids[i]`. Each
     * pid is its own unit of work: every process ends with the memory of one
     * `lldb_script` run on it, whatever the other blocks did. `patched_pids`
     * grows by `Recorded` of the pids and the blocks' outcomes, and a block
     * completes exactly when its target is patchable.
     */
    method RunPidBlocks(pids: seq<int>, targets: seq<Target>)
      requires |targets| == |pids| && DebuggerScript.Distinct(pids)
      requires forall i :: 0 <= i < |targets| ==> targets[i].process.pid == pids[i]
      modifies this, set t | t in targets :: t.process
      ensures forall j :: 0 <= j < |targets| ==>
        targets[j].process.memory
        == Patch.LldbScript(targets[j].symbols, targets[j].process.writable, old(targets[j].process.memory)).memory
      ensures patchedPids == old(patchedPids) + DebuggerScript.Recorded(pids, BlockOutcomes(targets))
    {
      for i := 0 to |targets|
        invariant forall j :: 0 <= j < i ==>
          targets[j].process.memory
          == Patch.LldbScript(targets[j].symbols, targets[j].process.writable, old(targets[j].process.memory)).memory
        invariant forall j :: i <= j < |targets| ==> targets[j].process.memory == old(targets[j].process.memory)
        invariant patchedPids == old(patchedPids) + DebuggerScript.Recorded(pids[..i], BlockOutcomes(targets[..i]))
      {
        RunBlockAt(pids, targets, i, old(patchedPids));
      }
      assert pids[..|pids|] == pids;
      assert targets[..|targets|] == targets;
    }

    /**
     * `print_status`: one summary line when as many pids were recorded as
     * were found (a comparison of counts, not of sets); otherwise a header,
     * one line per pid in order marked by membership in `patched_pids`, and a
     * request to quit with status 1.
     */
    method PrintStatus(pids: seq<int>) returns (lines: seq<StatusLine>, quit: Option<int>)
      ensures quit.None? <==> |patchedPids| == |pids|
      ensures quit.None? ==> lines == [AllPatched(|pids|)]
      ensures quit.Some? ==> quit.value == FailureExitCode && |lines| == |pids| + 1 && lines[0] == NotAllPatched
      ensures quit.Some? ==> forall i :: 0 <= i < |pids| ==> lines[i + 1] == PidResult(pids[i], pids[i] in patchedPids)
    {
      var n := |patchedPids|;
      if n == |pids| {
        return [AllPatched(n)], None;
      }
      lines := [NotAllPatched];
      for i := 0 to |pids|
        invariant |lines| == i + 1 && lines[0] == NotAllPatched
        invariant forall j :: 0 <= j < i ==> lines[j + 1] == PidResult(pids[j], pids[j] in patchedPids)
      {
        var pid := pids[i];
        if pid in patchedPids {
          lines := lines + [PidResult(pid, true)];
        } else {
          lines := lines + [PidResult(pid, false)];
        }
      }
      quit := Some(FailureExitCode);
    }
  }
}
