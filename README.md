# fix-quicklook, modelled in Dafny

fix-quicklook finds every running `QuickLookUIService` process on an Apple
Silicon Mac and attaches LLDB to each. In memory it rewrites two instructions
so that image previews lose their rounded corners:

- `-[IKImageContentView updateCornerRadius]` gets `RET` as its first
  instruction, so it returns at once.
- `-[QLDisplayBundleViewController enableBorder]` gets an unconditional `B` to
  `-[QLDisplayBundleViewController disableBorder]` as its first instruction.

The script writes an LLDB command script with one attach…detach block per
process. Inside the debugger it imports itself and runs `lldb_script` in every
block. At the end `print_status` reports which processes were patched.

The model has these parts:

- `A64` (`a64.dfy`): the arithmetic of the two instruction words. Python's
  `sign_extend` (really a reduction modulo 2^n) is `SignExtend`; Python's `<<`
  and `|` on non-negative integers are `ShiftLeft` and `BitOr`. The words are
  the A64 `B` (immediate) and `RET` encodings of the Arm Architecture Reference
  Manual for A-profile (ARM DDI 0487), section C6.2. `BranchTarget` decodes a
  `B` word. It is the independent reference the branch word is checked against.
- `Memory` (`memory.dfy`): process memory as a map from address to byte. It also
  holds the little-endian packing of `struct.pack('<I', …)` and its inverse.
- `Patch` (`patch.dfy`): what `get_symbol_address`, `write_instruction`, the two
  patch functions and `lldb_script` do, written as pure functions of a symbol
  table (name to every load address of that name), the writable addresses and
  the memory. Each Python exception that can stop a run is a value of `Error`.
- `LldbModule` (`lldb_module.dfy`): the imperative side. `ScriptState` holds
  the module globals `target`, `process` and `patched_pids`. `Process` holds
  the memory the debugger writes. Each patch method is proved against its
  function in `Patch`. `RunPidBlocks` runs `lldb_script` once per attach block of the
  generated script. `PrintStatus` builds the report line by line.
- `DebuggerScript` (`debugger_script.dfy`): the command script that `main`
  builds, as a sequence of abstract commands. `Recorded` says what
  `patched_pids` holds once every block has run.
- `Preflight` (`preflight.dfy`): the architecture check and the three-way SIP
  check, as pure classifiers of the two commands' trimmed output.

Three points of the code's behaviour are easy to misread:

- The code computes the instruction distance with floor division (`// 4`), not
  truncation toward zero. Dafny's `/` by a positive divisor is the same floor division.
- `print_status` compares the number of recorded pids with the number of
  discovered pids. It does not compare the two sets. `PrintStatus` states
  exactly that. `RunPidBlocks` shows what the blocks append to `patched_pids`.
  `StatusReflectsPatchability` then shows that the count agrees with
  per-process success, and that with distinct pids each mark is that process's
  own outcome.
- The branch property holds for any relative position of the two methods, not
  only for a target above the source. It needs the distance to be a multiple of
  4 bytes and within ±2^25 instructions.

## Model

| member | source | states |
|---|---|---|
| `A64.SignExtend` | fix_quicklook.py:96-97 | The result is in [0, 2^n) and congruent to the input modulo 2^n. |
| `A64.SignExtendRoundTrip` | fix_quicklook.py:96-97 | Any value in [-2^(n-1), 2^(n-1)), reduced and then read back as an n-bit two's-complement number, is the value again. |
| `A64.ToSignedRoundTrip` | fix_quicklook.py:96-97 | Every n-bit pattern read as a signed number lies in [-2^(n-1), 2^(n-1)), and reducing it again gives the pattern back. |
| `A64.BitOrDisjoint` | fix_quicklook.py:77 | `a << k` OR `b` equals `(a << k) + b` whenever `b < 2^k`, so the OR in the branch word acts as addition. |
| `A64.BranchWord` | fix_quicklook.py:77 | The branch word equals 5·2^26 + sign_extend(offset, 26) and is below 2^32. Bits 31..26 are 0b000101 (B) and bits 25..0 are the reduced offset. |
| `A64.BranchRoundTrip` | fix_quicklook.py:69-79 | The word computed from X to Y always decodes as a B. Its target is exactly Y if and only if Y−X is a multiple of 4 and (Y−X)//4 lies in [-2^25, 2^25). |
| `A64.RetIsReturnThroughX30` | fix_quicklook.py:66 | 0xd65f03c0 is below 2^32 and is RET through X30: the fixed bits 31..10, Rn = 30, and zero in bits 4..0. |
| `Memory.PackLE32` | fix_quicklook.py:91 | Packing succeeds exactly for values in [0, 2^32). It gives four bytes whose little-endian value is the input. |
| `Memory.UnpackPack` | fix_quicklook.py:91 | Any four bytes have a little-endian value below 2^32, and packing that value gives the same four bytes. |
| `Memory.StoreEffect` | fix_quicklook.py:89-92 | Storing four bytes changes no address outside the four-byte window and maps the whole window. Reading the word back gives the stored value. |
| `Patch.GetSymbolAddress` | fix_quicklook.py:82-84 | Resolves exactly when the name has exactly one match, and returns that match. Zero or several matches give `NotExactlyOneSymbol` with the match count. |
| `Patch.WriteInstruction` | fix_quicklook.py:87-93 | Succeeds exactly when the word fits 32 bits and all four bytes are writable. Otherwise it fails with the packing error or the write error. On success the window reads back as the word and nothing outside the window changes. |
| `Patch.PatchUpdateCornerRadius` | fix_quicklook.py:63-66 | Succeeds exactly when updateCornerRadius resolves uniquely and its window is writable. Then RET is at that address and nothing else changes. The failure is the lookup error or the write error. |
| `Patch.PatchEnableBorder` | fix_quicklook.py:69-79 | Succeeds exactly when both names resolve uniquely and enableBorder's window is writable. Then the branch word toward disableBorder is at enableBorder and nothing else changes. The failure is the first failing lookup or the write error. |
| `Patch.JumpWord` | fix_quicklook.py:74-77 | The word `patch_enableBorder` writes: the branch word for (disableBorder − enableBorder) // 4. It has no contract of its own. Its encoding is stated by `A64.BranchWord`, and where it lands by `A64.BranchRoundTrip`. |
| `Patch.LldbScript` | fix_quicklook.py:100-110 | Both patches in order. The run stops at the first exception and keeps earlier writes. It has no contract of its own; its behaviour is stated by `LldbScriptCompletesIff`, `LldbScriptFrame`, `LldbScriptPatches` and `LldbScriptNoRollback`. |
| `Patch.LldbScriptCompletesIff` | fix_quicklook.py:100-110 | A run completes exactly when all three symbols resolve uniquely and both windows are writable. A packing error never stops it. |
| `Patch.LldbScriptFrame` | fix_quicklook.py:100-110 | In every outcome only the windows of the resolved entry points can change. If updateCornerRadius does not resolve, nothing changes. |
| `Patch.LldbScriptPatches` | fix_quicklook.py:63-79 | After a completed run, enableBorder holds the branch word. For aligned entry points in range it lands on disableBorder. updateCornerRadius holds RET unless the two windows overlap. |
| `Patch.LldbScriptNoRollback` | fix_quicklook.py:100-110 | If the RET patch lands and the process is not fully patchable, the run fails and leaves the RET write in place. |
| `Patch.ReturnPatchIndependentOfAddress` | fix_quicklook.py:63-66 | Wherever updateCornerRadius is loaded, the RET patch reads back as the same word. This is a corollary of the readback clause of `Patch.PatchUpdateCornerRadius`. |
| `LldbModule.ScriptState.constructor` | fix_quicklook.py:58-60 | The module starts with no target, no process and an empty `patched_pids`. |
| `LldbModule.ScriptState.WriteInstruction` | fix_quicklook.py:87-93 | Changes the current process's memory exactly as `Patch.WriteInstruction` says. It returns that function's error, if any, and leaves memory as it was on failure. |
| `LldbModule.ScriptState.PatchUpdateCornerRadius` | fix_quicklook.py:63-66 | Changes the process memory and returns the failure exactly as `Patch.PatchUpdateCornerRadius` says for the current target's symbols. |
| `LldbModule.ScriptState.PatchEnableBorder` | fix_quicklook.py:69-79 | Computes the word with the source's own shift, OR and floor division. It changes the memory and returns the failure exactly as `Patch.PatchEnableBorder` says. |
| `LldbModule.ScriptState.LldbScript` | fix_quicklook.py:100-110 | Sets `target` and `process` to the selected target and its process. The process memory and the failure are those of `Patch.LldbScript`. It completes exactly when the target is patchable. The pid is appended to `patched_pids` if and only if both patches completed. |
| `LldbModule.ScriptState.RunPidBlock` | fix_quicklook.py:100-110 | One block's `lldb_script` run completes exactly when its target is patchable, and it appends the process's pid exactly then. The process's memory becomes that of `Patch.LldbScript`. |
| `LldbModule.ScriptState.RunBlockAt` | fix_quicklook.py:178-181 | Block i runs `lldb_script` on its own target. That process's memory becomes `Patch.LldbScript`'s, and what blocks 0 to i−1 recorded grows to `Recorded` of blocks 0 to i. |
| `LldbModule.ScriptState.RunPidBlocks` | fix_quicklook.py:178-181 | Running `lldb_script` once per attach block, in order, extends `patched_pids` by `Recorded` of the pids and the blocks' outcomes. Each pid is an independent unit of work: every process ends with the memory of one `lldb_script` run on its own starting memory, whatever the other blocks did. This holds when block i's target belongs to pid i and the pids are distinct, as `pgrep` lists them. |
| `LldbModule.BlockOutcomes` | fix_quicklook.py:100-110 | One outcome per block, in order. Outcome i is true exactly when target i is patchable. |
| `LldbModule.StatusReflectsPatchability` | fix_quicklook.py:110-125 | For what the blocks record, the count equals the number of pids exactly when every target is patchable. With distinct pids, each pid is marked OK exactly when its own target is patchable. |
| `LldbModule.ScriptState.PrintStatus` | fix_quicklook.py:113-126 | No quit exactly when the counts are equal, with the single success line. Otherwise it emits a header and one line per pid in input order, marked OK iff the pid is in `patched_pids`, and quits with status 1. |
| `DebuggerScript.BuildScript` | fix_quicklook.py:173-181 | The script is an import of the script path, then one attach/dlopen/lldb_script/continue/detach block per pid at commands 1+5i..5+5i, then one `print_status` call with the full list. It attaches to the pids exactly in order. |
| `DebuggerScript.Script` | fix_quicklook.py:178-181 | The closed form of the script-building loop: the import, `Blocks(pids)`, then the status report. It has no contract of its own; its shape is stated by `ScriptLayout`. |
| `DebuggerScript.ScriptLayout` | fix_quicklook.py:178-181 | The script has 5·n+2 commands: the import first, block i at commands 1+5i..5+5i, and the status report over the full list last. It attaches to the pids in order. |
| `DebuggerScript.PidBlock` | fix_quicklook.py:173-180 | The five commands for one pid: attach, dlopen of the image plugin with mode 2, `lldb_script`, continue, detach. Its attach is stated by `AttachOrderOfBlock`. |
| `DebuggerScript.Blocks` | fix_quicklook.py:179-180 | One `PidBlock` per pid, in order. It has no contract of its own; its layout is stated by `BlocksLayout` and `BlocksAttachInOrder`. |
| `DebuggerScript.BlocksLayout` | fix_quicklook.py:178-180 | The per-pid part has 5 commands per pid, and block i is the block for `pids[i]`. |
| `DebuggerScript.AttachOrderOfBlock` | fix_quicklook.py:173-180 | Each block attaches exactly once, to its own pid. |
| `DebuggerScript.BlocksAttachInOrder` | fix_quicklook.py:178-180 | Across all blocks, the pids attached to are exactly `pids`, in order. |
| `DebuggerScript.Recorded` | fix_quicklook.py:110 | What `patched_pids` gains once the blocks have run: each block's pid, in order, if that block's run completed. It has no contract of its own. `RecordedCountIff` and `RecordedMembership` state its properties, and `LldbModule.ScriptState.RunPidBlocks` shows the blocks produce it. |
| `DebuggerScript.RecordedStep` | fix_quicklook.py:110 | Running one more block appends its pid to what earlier blocks recorded exactly when it completes. |
| `DebuggerScript.RecordedCountIff` | fix_quicklook.py:110-115 | When each block records its pid only on completion, `patched_pids` is no longer than `pids`. It has equal length if and only if every run completed. |
| `DebuggerScript.RecordedMembership` | fix_quicklook.py:110-125 | With distinct pids, a pid is in `patched_pids` if and only if its own run completed. So each per-pid OK/FAIL mark is that pid's outcome. |
| `DebuggerScript.RecordedMarks` | fix_quicklook.py:110-125 | With distinct pids, every pid's mark is its own run's outcome, for all pids at once. |
| `Preflight.ClassifySip` | fix_quicklook.py:140-147 | The status is "enabled" exactly for the enabled line and "disabled" exactly for the disabled line. Every other line is unknown. |
| `Preflight.CheckEnvironment` | fix_quicklook.py:131-147 | The run proceeds exactly when the architecture is arm64 and SIP is not reported enabled, and otherwise exits with status 1. It warns exactly when the SIP line is not the disabled line. |

## Left out

- The external commands (`uname -m`, `csrutil status`, `pgrep -x QuickLookUIService`, `lldb --batch`) and the exit-code plumbing around them (fix_quicklook.py:132, 140, 157-167, 184-191). Their outputs are I/O. The architecture and SIP strings are parameters of `Preflight.CheckEnvironment`. The pid list and the script path are parameters of `DebuggerScript.BuildScript`. The "not running" exit, which is how an empty pid list ends the run, and the propagation of LLDB's exit code are not modelled.
- The LLDB API (`FindSymbols`, `GetLoadAddress`, `WriteMemory`, `GetProcessInfo`, `HandleCommand`) is foreign code. It is replaced by a symbol table of load addresses, a set of writable addresses, a byte map and an abstract quit code. A symbol whose load address is invalid because its image is not loaded is not distinguished from a loaded one.
- `Patch.WriteInstruction`: a failed write changes nothing. Whether LLDB's `WriteMemory` can write some bytes before it reports an error is not modelled.
- How LLDB runs the generated script (attach, `continue`, `detach`, and which target stays selected when an attach fails) is the debugger's behaviour. `LldbModule.ScriptState.RunPidBlocks` takes the target that each block selects as a parameter. It requires that block i's target is the process with pid i, and that the pids are distinct, as `pgrep` lists them.
- The `dlopen` force-load and the Objective-C class registration it triggers are foreign runtime behaviour. They appear only as the `Dlopen` command of the script.
- The self-import inside the debugger (fix_quicklook.py:45-59) and the exact text of the script and the report: blank lines, the `{pid: >7}` padding, and the "Fixing N QuickLook instances" message (fix_quicklook.py:169-170).
- Patching QuickLook processes started after the run is a TODO in the source (fix_quicklook.py:15-17), not behaviour.
