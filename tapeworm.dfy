/**
 * The interpreter object. Its methods update its fields in place: the tape
 * grows by appending, the input is consumed from the front, the output only
 * grows. Each method is proved against the step functions of `Engine`.
 *
 * A fresh object with one program loaded is `Valid()` and `Loaded()`.
 */
module Interpreter {
  import opened Wrappers
  import opened Brackets
  import opened Engine

  /** The read-only view handed to renderers. */
  datatype Snapshot = Snapshot(tape: seq<int>, pointer: int, ip: int, output: seq<int>, code: string)

  class Tapeworm {
    var tape: seq<int>
    var pointer: int
    var code: string
    var ip: int
    var inputBuffer: seq<int>
    var outputBuffer: seq<int>
    var bracketMap: map<int, int>

    /** The part of the object a step changes. */
    function State(): Machine
      reads this
    {
      Machine(tape, pointer, ip, inputBuffer, outputBuffer)
    }

    /** The object invariant: a state the engine can step from. */
    ghost predicate Valid()
      reads this
    {
      Engine.Valid(code, bracketMap, State())
    }

    /** The bracket table is the complete table of the loaded program. */
    ghost predicate Loaded()
      reads this`code, this`bracketMap
    {
      IsBracketMap(code, bracketMap)
    }

    /** The machine state, without the program's bracket table, is one a step can run from. */
    ghost predicate Resumable()
      reads this
    {
      0 <= pointer < |tape| && 0 <= ip <= |code| &&
      AllBytes(tape) && AllBytes(inputBuffer) && AllBytes(outputBuffer)
    }

    /** A fresh interpreter: `tapeSize` zero cells, no program, empty buffers. */
    constructor (tapeSize: int)
      requires tapeSize >= 1
      ensures Valid() && Loaded()
      ensures State() == Initial(tapeSize) && code == [] && bracketMap == map[]
    {
      tape := seq(tapeSize, _ => 0);
      pointer := 0;
      code := [];
      ip := 0;
      inputBuffer := [];
      outputBuffer := [];
      bracketMap := map[];
    }

    /**
     * Stores the program and builds its bracket table. The new entries are
     * written over the old table, so entries of an earlier program at
     * positions that are no bracket of this one stay; on an error the
     * entries written before it stay as well. The tape, pointer, `ip` and
     * buffers are not reset.
     */
    method LoadCode(newCode: string) returns (err: Option<SyntaxError>, ghost entries: map<int, int>)
      modifies this
      ensures code == newCode && State() == old(State())
      ensures bracketMap == old(bracketMap) + entries
      ensures Resolution(newCode, entries, err)
      ensures err.None? <==> Balanced(newCode)
      ensures err.None? && old(bracketMap) == map[] ==> Loaded()
      ensures err.None? && Resumable() ==> Valid()
    {
      code := newCode;
      var m, e := ResolveBrackets(newCode);
      entries := m;
      bracketMap := bracketMap + m;
      err := e;
      if err.None? {
        BracketMapJumpsInRange(code, entries);
        if old(bracketMap) == map[] {
          assert bracketMap == entries;
        }
      }
    }

    /** Runs one command and returns the snapshots, or nothing at the end or on a fault. */
    method Step() returns (r: Option<StepResult>)
      requires Valid()
      modifies this
      ensures Valid() && code == old(code) && bracketMap == old(bracketMap)
      ensures State() == Next(code, bracketMap, old(State()))
      ensures r == Report(code, bracketMap, old(State()))
    {
      if ip >= |code| {
        return None;
      }
      var cmd := code[ip];
      var before := Before(tape, pointer, cmd, ip, outputBuffer);
      if cmd == '>' {
        pointer := pointer + 1;
        if pointer >= |tape| {
          tape := tape + [0];
        }
      } else if cmd == '<' {
        pointer := pointer - 1;
        if pointer < 0 {
          return None;
        }
      } else if cmd == '+' {
        tape := tape[pointer := (tape[pointer] + 1) % 256];
      } else if cmd == '-' {
        tape := tape[pointer := (tape[pointer] - 1) % 256];
      } else if cmd == '.' {
        outputBuffer := outputBuffer + [tape[pointer]];
      } else if cmd == ',' {
        if |inputBuffer| > 0 {
          tape := tape[pointer := inputBuffer[0]];
          inputBuffer := inputBuffer[1..];
        } else {
          tape := tape[pointer := 0];
        }
      } else if cmd == '[' && tape[pointer] == 0 {
        ip := bracketMap[ip];
      } else if cmd == ']' && tape[pointer] != 0 {
        ip := bracketMap[ip];
      }
      ip := ip + 1;
      r := Some(StepResult(before, After(tape, pointer, outputBuffer), cmd, ip - 1));
    }

    /** The current state as a renderer sees it. */
    function GetState(): (r: Snapshot)
      reads this
      ensures Valid() ==>
        r.pointer < |r.tape| && 0 <= r.ip <= |r.code| && AllBytes(r.tape) && AllBytes(r.output)
    {
      Snapshot(tape, pointer, ip, outputBuffer, code)
    }

    /**
     * Steps until the program ends, a step returns nothing, or `maxSteps`
     * steps have run, and returns the number of steps that returned a result.
     */
    method Run(maxSteps: int) returns (steps: nat)
      requires Valid()
      modifies this
      ensures Valid() && code == old(code) && bracketMap == old(bracketMap)
      ensures steps <= (if maxSteps < 0 then 0 else maxSteps)
      ensures AllReported(code, bracketMap, old(State()), steps)
      ensures steps < maxSteps ==>
        Report(code, bracketMap, Iterate(code, bracketMap, old(State()), steps)).None?
      ensures State() == if steps < maxSteps
        then Next(code, bracketMap, Iterate(code, bracketMap, old(State()), steps))
        else Iterate(code, bracketMap, old(State()), steps)
    {
      ghost var start := State();
      steps := 0;
      while ip < |code| && steps < maxSteps
        invariant Valid() && code == old(code) && bracketMap == old(bracketMap)
        invariant steps <= (if maxSteps < 0 then 0 else maxSteps)
        invariant State() == Iterate(code, bracketMap, start, steps)
        invariant AllReported(code, bracketMap, start, steps)
        decreases maxSteps - steps
      {
        ghost var current := State();
        var state := Step();
        if state.None? {
          break;
        }
        assert current.ip < |code| && !Faults(code, current);
        steps := steps + 1;
      }
      if ip >= |code| {
        StepAtEnd(code, bracketMap, State());
      }
    }
  }
}
