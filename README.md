# Tapeworm Brainfuck engine in Dafny

Tapeworm is a Brainfuck interpreter that shows how a program moves over its
memory tape. This project models its engine, the class `Tapeworm` of
`src/tapeworm.py`. The engine has:

- a tape of byte cells that grows to the right;
- a data pointer;
- an instruction pointer (`ip`) into the program text;
- an input buffer and an output buffer;
- a bracket table that maps every `[` to its `]` and back.

Loading a program builds the table in one left-to-right scan with a stack of
open brackets. A step runs the command under `ip` and returns a snapshot from
before and one from after. A run repeats steps up to a bound.

The project has these modules:

- `Brackets` (`brackets.dfy`) defines Brainfuck bracket matching independently
  of any algorithm. `Depth(code, n)` counts the `[` minus the `]` in the first
  `n` characters. A `[` at `o` pairs with the first later `]` where the depth
  returns to its level. `ResolveBrackets` is the stack scan with its loop
  invariants, proved against that definition. Its error reports are
  characterised there as well.
- `Engine` (`engine.dfy`) holds the step semantics as functions on a `Machine`
  value:
  - `Next` is the state after one call of `step`.
  - `Report` is what that call returns.
  - `Iterate` is the state after `k` calls.
  - One lemma per command states what that command does.
- `Interpreter` (`tapeworm.dfy`) is the class `Tapeworm`. Its fields are
  updated in place. Its methods `LoadCode`, `Step` and `Run`
  are proved to follow `ResolveBrackets`, `Next`/`Report` and `Iterate`.
- `Commands` (`commands.dfy`) is the clean-up the command-line driver applies
  to a file: it keeps only the eight command characters.
- `Programs` (`examples.dfy`) holds small programs run through the model:
  - `+.`, `,.` and `<`;
  - the loop `++>+++[<+>-]`, followed through all 22 steps;
  - programs that fail to load.
- `Wrappers` (`wrappers.dfy`) holds `Option`.

Cells, input and output are byte values 0..255. The source stores characters
in its buffers through `chr` and `ord`, and the model stores their codes. The
caller assigns the input buffer directly, as in the source, which has no
setter for it.

## Behaviour that callers may not expect

- **Unmatched `[`.** The error names the most recently opened unclosed `[`
  (the top of the stack, `src/tapeworm.py:37-38`). It does not name the
  outermost one. `Brackets.LastUnclosed` states this, and `Programs.TwoOpen`
  shows it: for `[[` the reported position is 1.
- **Partial tables.** A failed load leaves the entries written before the
  error in the table (`src/tapeworm.py:35-36`). A later load writes over the
  old table without clearing it. `Interpreter.Tapeworm.LoadCode` states
  `bracketMap == old(bracketMap) + entries`.
- **Pointer fault.** The fault on `<` is caught in `step`, and `step` then
  returns `None`, the same value as the normal end of the program
  (`src/tapeworm.py:62-65`, `87-89`). The pointer is left at -1 and `ip` does
  not move, so `run` stops as if the program had ended. Calling `step` again
  runs the same `<` and faults again (`Engine.StoppedStaysStopped`).
- **Reported position.** The position a step returns is the new `ip` minus one
  (`src/tapeworm.py:91`, `102`). After a taken jump, that is the index of the
  partner bracket, not of the command that ran. The before-snapshot still holds
  the original index.
- **Non-command characters.** `load_code` keeps them; only the command-line
  driver filters them out. The engine treats them as no-ops that only advance
  `ip` (`Engine.NonCommandStep`).

## Model

| member | source | states |
|---|---|---|
| Interpreter.Tapeworm.constructor | src/tapeworm.py:11-18 | a fresh interpreter has `tapeSize` zero cells, pointer 0, `ip` 0, empty buffers, no program and an empty table, and is a valid, loaded state |
| Interpreter.Tapeworm.LoadCode | src/tapeworm.py:20-38 | stores the program and leaves the machine state unchanged; the table becomes the old table overwritten by entries that are sound for the new program; loading fails exactly when the program is unbalanced, with the error the scan reports; on success a fresh object is loaded, and a machine state that fits the program is valid |
| Brackets.ResolveBrackets | src/tapeworm.py:25-38 | no error exactly when the brackets balance, and then the table is the complete bracket table; an unmatched `]` is reported at the first position where the depth goes negative, and the entries written before it are exactly the pairs before that position; an unmatched `[` is reported as the latest `[` that is never closed, and the entries written are all pairs, every bracket missing from them being a `[` that never closes |
| Brackets.BracketMapSymmetric | src/tapeworm.py:34-36 | the table is bidirectional: following an entry twice returns to the start, a `[` maps forward to a `]`, a `]` maps back to a `[` |
| Brackets.BracketMapUnique | src/tapeworm.py:25-36 | two complete tables of the same program are equal, so the table is determined by the program |
| Brackets.CloserUnique | src/tapeworm.py:34-36 | a `[` pairs with at most one `]` |
| Brackets.OpenerUnique | src/tapeworm.py:34-36 | a `]` pairs with at most one `[` |
| Brackets.UnderflowIsFirstNegative | src/tapeworm.py:31-33 | the reported unmatched `]` is where the depth first drops to -1; no earlier prefix is negative |
| Brackets.UnclosedNeverReturns | src/tapeworm.py:37-38 | the reported unmatched `[` pairs with no `]`: no later prefix returns to its depth |
| Engine.Initial | src/tapeworm.py:12-17 | the fresh machine has `n` zero cells, pointer and `ip` 0, and empty buffers |
| Engine.BracketMapJumpsInRange | src/tapeworm.py:80-85 | with a complete table every bracket has an entry and every jump lands inside the program, so no lookup fails |
| Engine.Next | src/tapeworm.py:40-91 | one call of `step`, running the command dispatch `Execute` (lines 58-85) and then advancing `ip` unless the step faulted; a step from a valid state leads to a valid state: the pointer stays below the tape end, a negative pointer only sits on a `<`, cells and buffers stay bytes |
| Engine.Report | src/tapeworm.py:40-103 | a step returns nothing exactly at the end of the program or on a `<` fault; otherwise it returns the command under `ip`, and a before-snapshot with the old tape and the old `ip` |
| Engine.StepFrame | src/tapeworm.py:58-85 | any step grows the tape by at most one zero cell, changes no cell but the current one, appends at most one byte to the output, and consumes at most the front of the input |
| Engine.StepAtEnd | src/tapeworm.py:42-43 | at or past the end of the program a step changes nothing and returns nothing |
| Engine.ArithmeticStep | src/tapeworm.py:66-69 | `+` and `-` change only the current cell, to its successor or predecessor modulo 256, with 255 wrapping to 0 and 0 to 255, and move on |
| Engine.MoveRightStep | src/tapeworm.py:58-61 | `>` moves the pointer right; the new tape is the old one with a single 0 appended exactly when the pointer passes its end, and the old tape otherwise; it never faults |
| Engine.MoveLeftStep | src/tapeworm.py:62-89 | `<` moves the pointer left; from cell 0 it faults: the pointer is left below 0, `ip` stays and nothing is returned; otherwise it moves on and returns a result |
| Engine.InputStep | src/tapeworm.py:74-79 | `,` stores the front of the input and consumes it, or stores 0 when the input is empty |
| Engine.OutputStep | src/tapeworm.py:70-72 | `.` appends the current cell to the output and changes nothing else |
| Engine.NextIp | src/tapeworm.py:80-102 | `[` on 0 continues just past its `]`; `]` on non-zero continues just past its `[`; anything else continues at `ip + 1`; a bracket step changes nothing but `ip`; the step returns the before and after snapshots and the new `ip` minus one as position |
| Engine.NonCommandStep | src/tapeworm.py:56-91 | a character outside the command set only advances `ip` and returns a result |
| Engine.Iterate | src/tapeworm.py:121-134 | any number of steps from a valid state leads to a valid state |
| Engine.AllReportedMeans | src/tapeworm.py:121-134 | the condition on the steps counted by a run holds exactly when every one of those steps returned a result |
| Engine.CellsStayBytes | src/tapeworm.py:66-79 | every cell is a byte after any number of steps |
| Engine.OutputAppendOnly | src/tapeworm.py:70-72 | the output after `j` steps is a prefix of the output after `k >= j` steps, and the tape never shrinks |
| Engine.StoppedStaysStopped | src/tapeworm.py:62-89 | after a step that returned nothing, every later step returns nothing as well |
| Interpreter.Tapeworm.Step | src/tapeworm.py:40-103 | updates the fields in place to `Next` of the old state and returns `Report` of the old state; the program and the table are unchanged, and the object stays valid |
| Interpreter.Tapeworm.GetState | src/tapeworm.py:105-113 | the snapshot of a valid object has the pointer below the tape end, `ip` within the program, and byte cells and output |
| Interpreter.Tapeworm.Run | src/tapeworm.py:115-140 | returns the number of steps that returned a result, at most the bound; each of them did; if fewer than the bound ran, the next step returned nothing and its state change is kept; the final state is that many steps (plus the one that returned nothing) from the start |
| Commands.Filter | src/tapeworm.py:153 | the result is no longer than the text and holds only command characters |
| Commands.FilterCounts | src/tapeworm.py:153 | every command character occurs in the result exactly as often as in the text, and no other character occurs |
| Commands.FilterAppend | src/tapeworm.py:153 | filtering a concatenation is the concatenation of the filtered parts, so commands keep their order |
| Commands.FilterKeepsCommands | src/tapeworm.py:153 | a text made only of commands is unchanged |
| Commands.FilterIdempotent | src/tapeworm.py:153 | filtering twice is the same as filtering once |
| Programs.PlusDot | src/tapeworm.py:66-72 | `+.` outputs the single byte 1 and then ends |
| Programs.ReadWrite | src/tapeworm.py:70-79 | `,.` with input 65 stores 65, consumes the input and outputs 65 |
| Programs.LeftFromStart | src/tapeworm.py:62-65 | `<` on a fresh machine faults on the first step: nothing is returned, the pointer is -1 and `ip` is still 0 |
| Programs.LoneOpen | src/tapeworm.py:37-38 | `[` fails to load with an unmatched `[` at 0 |
| Programs.LoneClose | src/tapeworm.py:31-33 | `]` fails to load with an unmatched `]` at 0 |
| Programs.TwoOpen | src/tapeworm.py:37-38 | `[[` fails to load with an unmatched `[` at 1, the later of the two |
| Programs.LoopTable | src/tapeworm.py:25-36 | the table of `++>+++[<+>-]` is `{6: 11, 11: 6}` |
| Programs.MoveLoopValid | src/tapeworm.py:11-36 | a fresh machine with that program and table is a valid state |
| Programs.MoveLoopIncrement | src/tapeworm.py:66-67 | its first two steps set cell 0 to 2 |
| Programs.MoveLoopStart | src/tapeworm.py:58-67 | its first three steps set cell 0 to 2 and move to a zero cell 1 |
| Programs.MoveLoopFill | src/tapeworm.py:66-67 | steps 4 and 5 bring cell 1 to 2 |
| Programs.MoveLoopEnter | src/tapeworm.py:66-82 | steps 6 and 7 bring cell 1 to 3 and enter the loop without jumping |
| Programs.MoveLoopCarry | src/tapeworm.py:58-67 | `<+>` inside the loop adds one to cell 0 and returns to cell 1 |
| Programs.MoveLoopDecrement | src/tapeworm.py:68-85 | `-]` takes one from cell 1 and jumps back into the loop unless cell 1 became 0 |
| Programs.MoveLoopPass | src/tapeworm.py:58-85 | one pass of the loop body moves one unit from cell 1 to cell 0 |
| Programs.MoveLoop | src/tapeworm.py:40-103 | after 22 steps the program has ended with 5 in cell 0, 0 in cell 1 and the pointer on cell 1, and a further step returns nothing |

## Left out

- Printing: the echo of each output character (`src/tapeworm.py:73`), the fault message (`88`) and the trace `run` prints (`117-118`, `126-138`). These are console I/O and change no state.
- `chr` and `ord`: the buffers hold byte codes instead of one-character strings (`src/tapeworm.py:53`, `71`, `76`, `99`, `111`).
- Interpreter.Tapeworm.Step: requires input values to be bytes. The source stores `ord` of any character, which can exceed 255 until a `+` or `-` reduces it modulo 256.
- Interpreter.Tapeworm.Step: not modelled on an object whose load failed or whose machine state does not fit the program (for example a reload onto a shorter program). There the source can raise a `KeyError` or `IndexError` that the catch-all turns into `None`, or index the tape from its end with a negative pointer. The model requires `Valid()`, and `LoadCode` states when a load yields it.
- Interpreter.Tapeworm.constructor: requires `tapeSize >= 1`. With an empty tape the first cell access raises an `IndexError`, which `step` turns into `None`; a negative size is not a meaningful tape.
- Default arguments: the tape size 30000 (`src/tapeworm.py:11`) and the step bound 100000 (`115`) are passed explicitly by the caller.
- The command-line driver (`src/tapeworm.py:142-162`): argument checking, file reading and error printing are I/O. Only its character filter is modelled (`Commands.Filter`).
- The error messages of the `SyntaxError` and `MemoryError` exceptions: the model keeps the error kind and its position, not the text.
- `src/web_tapeworm.py`, the web front end, is not part of this model. It only creates, loads and steps a fresh interpreter and renders the snapshots.
