/**
 * What one run of `lldb_script` does to the attached process, as pure
 * functions of its symbol table and memory: resolve the symbols, pack the two
 * instruction words and store them. Each Python exception that can end the
 * run is an `Error`.
 */
module Patch {
  import opened Outcomes
  import opened A64
  import opened Memory

  const UpdateCornerRadius: string := "-[IKImageContentView updateCornerRadius]"
  const EnableBorder: string := "-[QLDisplayBundleViewController enableBorder]"
  const DisableBorder: string := "-[QLDisplayBundleViewController disableBorder]"

  /** The exceptions that stop a run of `lldb_script`. */
  datatype Error =
    | NotExactlyOneSymbol(name: string, matches: nat)  // the one-element unpack of FindSymbols raises ValueError
    | WordOutOfRange(insn: int)                       // struct.pack('<I', …) raises struct.error
    | WriteFailed(address: int)                       // `assert e.Success()` raises AssertionError

  /** Symbol name to the load addresses of every symbol of that name. */
  type SymbolTable = map<string, seq<int>>

  function Matches(symbols: SymbolTable, name: string): seq<int> {
    if name in symbols then symbols[name] else []
  }

  predicate Resolves(symbols: SymbolTable, name: string) {
    |Matches(symbols, name)| == 1
  }

  function AddressOf(symbols: SymbolTable, name: string): int
    requires Resolves(symbols, name)
  {
    Matches(symbols, name)[0]
  }

  /** `get_symbol_address`: the load address of the one symbol called `name`; any other number of matches is an error. */
  function GetSymbolAddress(symbols: SymbolTable, name: string): (r: Result<int, Error>)
    ensures r.Ok? <==> |Matches(symbols, name)| == 1
    ensures r.Ok? ==> Matches(symbols, name) == [r.value]
    ensures r.Err? ==> r.error == NotExactlyOneSymbol(name, |Matches(symbols, name)|)
  {
    var found := Matches(symbols, name);
    if |found| == 1 then Ok(found[0]) else Err(NotExactlyOneSymbol(name, |found|))
  }

  /**
   * `write_instruction`: pack `insn` little-endian and write it at `addr`.
   * The write fails unless all four bytes are writable; a failed write
   * changes nothing.
   */
  function WriteInstruction(mem: Memory, writable: set<int>, addr: int, insn: int): (r: Result<Memory, Error>)
    ensures r.Ok? <==> 0 <= insn < WordLimit && Window(addr) <= writable
    ensures r.Err? ==> r.error == if 0 <= insn < WordLimit then WriteFailed(addr) else WordOutOfRange(insn)
    ensures r.Ok? ==> ReadWord(r.value, addr) == Some(insn)
    ensures r.Ok? ==> UnchangedOutside(mem, r.value, Window(addr)) && r.value.Keys == mem.Keys + Window(addr)
  {
    match PackLE32(insn)
    case None => Err(WordOutOfRange(insn))
    case Some(bytes) =>
      if Window(addr) <= writable then
        StoreEffect(mem, addr, bytes);
        Ok(Store(mem, addr, bytes))
      else
        Err(WriteFailed(addr))
  }

  /** `patch_updateCornerRadius`: overwrite the first instruction of updateCornerRadius with RET. */
  function PatchUpdateCornerRadius(symbols: SymbolTable, writable: set<int>, mem: Memory): (r: Result<Memory, Error>)
    ensures r.Ok? <==> Resolves(symbols, UpdateCornerRadius) && Window(AddressOf(symbols, UpdateCornerRadius)) <= writable
    ensures r.Ok? ==> ReadWord(r.value, AddressOf(symbols, UpdateCornerRadius)) == Some(RetX30)
    ensures r.Ok? ==> UnchangedOutside(mem, r.value, Window(AddressOf(symbols, UpdateCornerRadius)))
    ensures r.Err? ==> r.error == if Resolves(symbols, UpdateCornerRadius)
                                  then WriteFailed(AddressOf(symbols, UpdateCornerRadius))
                                  else NotExactlyOneSymbol(UpdateCornerRadius, |Matches(symbols, UpdateCornerRadius)|)
  {
    var addr :- GetSymbolAddress(symbols, UpdateCornerRadius);
    WriteInstruction(mem, writable, addr, RetX30)
  }

  /** The word `patch_enableBorder` writes: a B from `enable` to `disable`. */
  function JumpWord(enable: int, disable: int): nat {
    BranchWord((disable - enable) / 4)
  }

  /** `patch_enableBorder`: overwrite the first instruction of enableBorder with a branch to disableBorder. */
  function PatchEnableBorder(symbols: SymbolTable, writable: set<int>, mem: Memory): (r: Result<Memory, Error>)
    ensures r.Ok? <==> Resolves(symbols, EnableBorder) && Resolves(symbols, DisableBorder)
                       && Window(AddressOf(symbols, EnableBorder)) <= writable
    ensures r.Ok? ==> ReadWord(r.value, AddressOf(symbols, EnableBorder))
                      == Some(JumpWord(AddressOf(symbols, EnableBorder), AddressOf(symbols, DisableBorder)))
    ensures r.Ok? ==> UnchangedOutside(mem, r.value, Window(AddressOf(symbols, EnableBorder)))
    ensures r.Err? ==> r.error == if !Resolves(symbols, EnableBorder)
                                  then NotExactlyOneSymbol(EnableBorder, |Matches(symbols, EnableBorder)|)
                                  else if !Resolves(symbols, DisableBorder)
                                  then NotExactlyOneSymbol(DisableBorder, |Matches(symbols, DisableBorder)|)
                                  else WriteFailed(AddressOf(symbols, EnableBorder))
  {
    var enable :- GetSymbolAddress(symbols, EnableBorder);
    var disable :- GetSymbolAddress(symbols, DisableBorder);
    WriteInstruction(mem, writable, enable, JumpWord(enable, disable))
  }

  /** The process memory after one `lldb_script` run, and the exception that stopped it, if any. */
  datatype Run = Run(memory: Memory, failure: Option<Error>)

  /**
   * `lldb_script` without its bookkeeping: both patches in order. An error in
   * the second leaves the first one's write in place; there is no rollback.
   */
  function LldbScript(symbols: SymbolTable, writable: set<int>, mem: Memory): Run {
    match PatchUpdateCornerRadius(symbols, writable, mem)
    case Err(e) => Run(mem, Some(e))
    case Ok(patched) =>
      match PatchEnableBorder(symbols, writable, patched)
      case Err(e) => Run(patched, Some(e))
      case Ok(done) => Run(done, None)
  }

  /** Every name resolves to one address and both words can be written. */
  predicate Patchable(symbols: SymbolTable, writable: set<int>) {
    && Resolves(symbols, UpdateCornerRadius)
    && Resolves(symbols, EnableBorder)
    && Resolves(symbols, DisableBorder)
    && Window(AddressOf(symbols, UpdateCornerRadius)) <= writable
    && Window(AddressOf(symbols, EnableBorder)) <= writable
  }

  /** The addresses a run may write: the windows of the entry points that resolved. */
  function Touched(symbols: SymbolTable): set<int> {
    (if Resolves(symbols, UpdateCornerRadius) then Window(AddressOf(symbols, UpdateCornerRadius)) else {})
    + (if Resolves(symbols, EnableBorder) then Window(AddressOf(symbols, EnableBorder)) else {})
  }

  /** A run completes exactly when the process is patchable; no packing error can occur. */
  lemma LldbScriptCompletesIff(symbols: SymbolTable, writable: set<int>, mem: Memory)
    ensures LldbScript(symbols, writable, mem).failure.None? <==> Patchable(symbols, writable)
    ensures LldbScript(symbols, writable, mem).failure.Some? ==> !LldbScript(symbols, writable, mem).failure.value.WordOutOfRange?
  {
    var first := PatchUpdateCornerRadius(symbols, writable, mem);
    if first.Ok? {
      var second := PatchEnableBorder(symbols, writable, first.value);
    }
  }

  /** Whatever the outcome, only the windows of the resolved entry points can change. */
  lemma LldbScriptFrame(symbols: SymbolTable, writable: set<int>, mem: Memory)
    ensures UnchangedOutside(mem, LldbScript(symbols, writable, mem).memory, Touched(symbols))
    ensures !Resolves(symbols, UpdateCornerRadius) ==> LldbScript(symbols, writable, mem).memory == mem
  {
    var first := PatchUpdateCornerRadius(symbols, writable, mem);
    if first.Ok? {
      var second := PatchEnableBorder(symbols, writable, first.value);
      var w1 := Window(AddressOf(symbols, UpdateCornerRadius));
      if second.Ok? {
        UnchangedOutsideTrans(mem, first.value, second.value, w1, Window(AddressOf(symbols, EnableBorder)));
      } else {
        UnchangedOutsideTrans(mem, first.value, first.value, w1, {});
      }
    } else {
      UnchangedOutsideTrans(mem, mem, mem, {}, {});
    }
  }

  /**
   * After a completed run enableBorder starts with a branch that lands on
   * disableBorder (for word-aligned entry points within ±2^25 instructions),
   * and updateCornerRadius starts with RET unless the two words overlap.
   */
  lemma LldbScriptPatches(symbols: SymbolTable, writable: set<int>, mem: Memory)
    requires Patchable(symbols, writable)
    ensures var run := LldbScript(symbols, writable, mem);
      var enable, disable := AddressOf(symbols, EnableBorder), AddressOf(symbols, DisableBorder);
      && run.failure.None?
      && ReadWord(run.memory, enable) == Some(JumpWord(enable, disable))
      && ((disable - enable) % 4 == 0 && -Pow2(25) <= (disable - enable) / 4 < Pow2(25)
          ==> BranchTarget(enable, JumpWord(enable, disable)) == Some(disable))
      && (Window(AddressOf(symbols, UpdateCornerRadius)) !! Window(enable)
          ==> ReadWord(run.memory, AddressOf(symbols, UpdateCornerRadius)) == Some(RetX30))
  {
    var enable, disable := AddressOf(symbols, EnableBorder), AddressOf(symbols, DisableBorder);
    var first := PatchUpdateCornerRadius(symbols, writable, mem);
    var second := PatchEnableBorder(symbols, writable, first.value);
    BranchRoundTrip(enable, disable);
    if Window(AddressOf(symbols, UpdateCornerRadius)) !! Window(enable) {
      ReadWordUnchanged(first.value, second.value, Window(enable), AddressOf(symbols, UpdateCornerRadius));
    }
  }

  /** When the first patch lands and the second fails, the run stops with the RET already written. */
  lemma LldbScriptNoRollback(symbols: SymbolTable, writable: set<int>, mem: Memory)
    requires PatchUpdateCornerRadius(symbols, writable, mem).Ok?
    requires !Patchable(symbols, writable)
    ensures LldbScript(symbols, writable, mem).failure.Some?
    ensures LldbScript(symbols, writable, mem).memory == PatchUpdateCornerRadius(symbols, writable, mem).value
    ensures ReadWord(LldbScript(symbols, writable, mem).memory, AddressOf(symbols, UpdateCornerRadius)) == Some(RetX30)
  {
  }

  /**
   * The RET patch writes the same word wherever updateCornerRadius is loaded:
   * a corollary of the readback clause of `PatchUpdateCornerRadius`, stated
   * as a lemma because the constant word is a property of its own.
   */
  lemma ReturnPatchIndependentOfAddress(symbols: SymbolTable, symbols': SymbolTable, writable: set<int>, mem: Memory)
    requires PatchUpdateCornerRadius(symbols, writable, mem).Ok?
    requires PatchUpdateCornerRadius(symbols', writable, mem).Ok?
    ensures ReadWord(PatchUpdateCornerRadius(symbols, writable, mem).value, AddressOf(symbols, UpdateCornerRadius))
         == ReadWord(PatchUpdateCornerRadius(symbols', writable, mem).value, AddressOf(symbols', UpdateCornerRadius))
  {
  }
}
