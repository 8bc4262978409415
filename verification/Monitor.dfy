/** The monitor of `main.cpp`: the trace engine behind a switch, and a count of the violations. */
module Monitor {
  import opened Words
  import opened IntegrityHash
  import opened RegionIntegrity
  import TraceEngine
  import TraceLog

  class IntegrityMonitor {
    const engine: TraceEngine.Engine
    var traceEnabled: bool
    var violations: nat

    constructor (engine: TraceEngine.Engine)
      ensures this.engine == engine && !traceEnabled && violations == 0
    {
      this.engine := engine;
      traceEnabled, violations := false, 0;
    }

    /** `monitor::init`; `trace_init` cannot fail. */
    method Init() returns (code: int)
      requires engine.Valid()
      modifies this`traceEnabled, engine, engine.mem, engine.mem.cells, engine.log, engine.log.events, engine.table
      ensures code == 0 && traceEnabled && engine.Valid()
      ensures engine.log.View() == TraceLog.FreshLog() && engine.table[..] == BaselineTable(old(engine.table[..]))
    {
      engine.Init();
      traceEnabled := true;
      code := 0;
    }

    /** `monitor::check_integrity`: a failed check counts as one violation. */
    method CheckIntegrity(tsc: Word) returns (code: int)
      requires engine.Valid()
      modifies this`violations, engine, engine.mem, engine.mem.cells, engine.log, engine.log.events
      ensures engine.Valid() && engine.table[..] == old(engine.table[..])
      ensures var (failed, m) := Checks(old(engine.mem.cells[..]), engine.table[..], engine.layout, HASH);
              && code == (if !traceEnabled then -1 else if failed != 0 then -2 else 0)
              && violations == old(violations) + (if traceEnabled && failed != 0 then 1 else 0)
              && engine.mem.cells[..] == if traceEnabled then m else old(engine.mem.cells[..])
    {
      if !traceEnabled {
        return -1;
      }
      var rax := engine.CheckIntegrity(tsc);
      if rax != 0 {
        violations := violations + 1;
        return -2;
      }
      code := 0;
    }
  }
}
