/** What a clocked loop means.
  *
  * The source is a small-step machine whose configuration is the list of
  * statements still to run plus the chain of loops around them. Every step takes
  * no time except `Tick`, which ends the clock cycle. The extracted program is a
  * `match pc` whose state bodies are run to their end once per cycle. Both are
  * observed through the ports and memory buses they drive, cycle by cycle.
  */
module Semantics {
  import opened Syntax

  // ----- State and expressions -----------------------------------------------

  /** `op` interprets every uninterpreted operator; `input` is the value on a port in
    * a given cycle. Both are arbitrary, so every theorem holds for every program's
    * operators and every input stream.
    */
  datatype Env = Env(op: (string, int, int) -> int, input: (nat, string) -> int)

  datatype State = State(vars: map<string, int>, cycle: nat)

  datatype Event = Event(sink: Sink, value: int)

  const U32 := 0x1_0000_0000

  function Get(vars: map<string, int>, x: string): int {
    if x in vars then vars[x] else 0
  }

  function Eval(env: Env, e: Expr, st: State): int {
    match e
    case Lit(n) => n
    case Var(x) => Get(st.vars, x)
    case Input(p) => env.input(st.cycle, p)
    case Not(a) => if Eval(env, a, st) == 0 then 1 else 0
    case AddU32(a, b) => (Eval(env, a, st) + Eval(env, b, st)) % U32
    case Ge(a, b) => if Eval(env, a, st) >= Eval(env, b, st) then 1 else 0
    case Apply(f, a, b) => env.op(f, Eval(env, a, st), Eval(env, b, st))
  }

  /** The arm a branch takes: the selector's value, with everything out of range
    * falling to the last arm.
    */
  function Pick(env: Env, sel: Expr, count: nat, st: State): (i: nat)
    requires count > 0
    ensures i < count
  {
    var v := Eval(env, sel, st);
    if 0 <= v < count then v else count - 1
  }

  function Assign(st: State, x: string, v: int): State {
    st.(vars := st.vars[x := v])
  }

  function Perform(env: Env, a: Action, st: State): State {
    match a
    case Let(x, e) => Assign(st, x, Eval(env, e, st))
    case Set(x, e) => Assign(st, x, Eval(env, e, st))
    case Drive(_, _) => st
  }

  function Emit(env: Env, a: Action, st: State): seq<Event> {
    match a
    case Drive(sink, e) => [Event(sink, Eval(env, e, st))]
    case _ => []
  }

  function Edge(st: State): State {
    st.(cycle := st.cycle + 1)
  }

  // ----- The source program --------------------------------------------------

  /** The loops around the statement being run, innermost first. `after` is what
    * follows a nested loop, and so what a `break` continues with. A running counted
    * loop carries its statement, the next index and the bound, both read on entry.
    */
  datatype Kont =
    | Module(body: seq<Stmt>)
    | Nested(body: seq<Stmt>, after: seq<Stmt>, outer: Kont)
    | InWhile(cond: Expr, body: seq<Stmt>, after: seq<Stmt>, outer: Kont)
    | InFor(counter: string, bound: Expr, next: int, hi: int, body: seq<Stmt>, after: seq<Stmt>, outer: Kont)

  datatype Config = Config(todo: seq<Stmt>, k: Kont)

  datatype Move = Move(log: seq<Event>, cfg: Config, st: State) | AtTick | Wrong

  /** Control at the end of a loop's body, or at its `continue`: the back edge. */
  function Rewind(env: Env, k: Kont, st: State): Move {
    match k
    case Module(body) => Move([], Config(body, k), st)
    case Nested(body, _, _) => Move([], Config(body, k), st)
    case InWhile(c, body, after, outer) =>
      if Eval(env, c, st) != 0 then Move([], Config(body, k), st) else Move([], Config(after, outer), st)
    case InFor(x, _, next, hi, body, after, outer) =>
      if next < hi then Move([], Config(body, k.(next := next + 1)), Assign(st, x, next))
      else Move([], Config(after, outer), st)
  }

  /** One step that takes no time, unless control stands at a tick. */
  function Step(env: Env, cfg: Config, st: State): Move {
    if cfg.todo == [] then Rewind(env, cfg.k, st) else
    var rest := cfg.todo[1..];
    match cfg.todo[0]
    case Tick => AtTick
    case Do(a) => Move(Emit(env, a, st), Config(rest, cfg.k), Perform(env, a, st))
    case Branch(sel, arms) =>
      if arms == [] then Wrong
      else Move([], Config(arms[Pick(env, sel, |arms|, st)].body + rest, cfg.k), st)
    case Loop(body) => Move([], Config(body, Nested(body, rest, cfg.k)), st)
    case While(c, body) => Move([], Config([], InWhile(c, body, rest, cfg.k)), st)
    case For(x, lo, hi, body) =>
      Move([], Config([], InFor(x, hi, Eval(env, lo, st), Eval(env, hi, st), body, rest, cfg.k)), st)
    case Break => if cfg.k.Module? then Wrong else Move([], Config(cfg.k.after, cfg.k.outer), st)
    case Continue => Move([], Config([], cfg.k), st)
    case SetPc(_) => Wrong
    case Goto(_) => Wrong
  }

  datatype Seen = Seen(log: seq<Event>, cfg: Config, st: State)

  /** Where `n` zero-time steps lead, and what they drove. */
  function Steps(env: Env, cfg: Config, st: State, n: nat): Option<Seen>
    decreases n
  {
    if n == 0 then Some(Seen([], cfg, st)) else
    var m := Step(env, cfg, st);
    if !m.Move? then None else
    var r := Steps(env, m.cfg, m.st, n - 1);
    if r.None? then None else Some(r.value.(log := m.log + r.value.log))
  }

  /** Control gets from `cfg` to `o.cfg` within the cycle, driving exactly `o.log`. */
  ghost predicate Reaches(env: Env, cfg: Config, st: State, o: Seen) {
    exists n: nat :: Steps(env, cfg, st, n) == Some(o)
  }

  predicate StandsAtTick(cfg: Config) {
    cfg.todo != [] && cfg.todo[0] == Tick
  }

  /** One whole clock cycle: from `cfg` to the configuration after the next tick. */
  ghost predicate Cycle(env: Env, cfg: Config, st: State, log: seq<Event>, cfg': Config, st': State) {
    exists o: Seen ::
      && Reaches(env, cfg, st, o) && StandsAtTick(o.cfg)
      && log == o.log && cfg' == Config(o.cfg.todo[1..], o.cfg.k) && st' == Edge(o.st)
  }

  /** A run of `|logs|` clock cycles, `logs[i]` being what cycle `i` drove. */
  ghost predicate Runs(env: Env, cfg: Config, st: State, logs: seq<seq<Event>>, cfg': Config, st': State)
    decreases |logs|
  {
    if logs == [] then cfg' == cfg && st' == st
    else exists mid: Config, sm: State ::
      Cycle(env, cfg, st, logs[0], mid, sm) && Runs(env, mid, sm, logs[1..], cfg', st')
  }

  // ----- The extracted program -----------------------------------------------

  /** How a state body left `pc`: untouched, assigned, or at a zero-time marker. */
  datatype Next = Hold | Pc(target: nat) | Jump(target: nat) | Stuck

  datatype Ran = Ran(log: seq<Event>, st: State, next: Next)

  /** Run a state body. `SetPc` is an ordinary assignment: what follows it still runs. A
    * counted loop runs once for every index of its range, which is read on entry.
    */
  function Exec(env: Env, code: seq<Stmt>, st: State, next: Next): Ran
    decreases code, 0, 0
  {
    if code == [] then Ran([], st, next) else
    var rest := code[1..];
    match code[0]
    case Do(a) =>
      var r := Exec(env, rest, Perform(env, a, st), next);
      r.(log := Emit(env, a, st) + r.log)
    case SetPc(n) => Exec(env, rest, st, Pc(n))
    case Goto(n) => Ran([], st, Jump(n))
    case Branch(sel, arms) =>
      if arms == [] then Ran([], st, Stuck) else
      var a := Exec(env, arms[Pick(env, sel, |arms|, st)].body, st, next);
      if a.next.Jump? || a.next.Stuck? then a else
      var r := Exec(env, rest, a.st, a.next);
      r.(log := a.log + r.log)
    case For(x, lo, hi, body) =>
      var a := Repeat(env, x, Eval(env, lo, st), Eval(env, hi, st), body, st, next);
      if a.next.Jump? || a.next.Stuck? then a else
      var r := Exec(env, rest, a.st, a.next);
      r.(log := a.log + r.log)
    case _ => Ran([], st, Stuck)
  }

  /** The iterations of a counted loop from index `i` on. */
  function Repeat(env: Env, x: string, i: int, hi: int, body: seq<Stmt>, st: State, next: Next): Ran
    decreases body, 1, if i < hi then hi - i else 0
  {
    if i >= hi then Ran([], st, next) else
    var a := Exec(env, body, Assign(st, x, i), next);
    if a.next.Jump? || a.next.Stuck? then a else
    var r := Repeat(env, x, i + 1, hi, body, a.st, a.next);
    r.(log := a.log + r.log)
  }

  datatype MachineRun = MachineRun(logs: seq<seq<Event>>, pc: nat, st: State, ok: bool)

  /** `loop { match pc { 0 => .., _ => {} }; tick }` for `k` cycles. A `pc` no arm
    * names selects the empty `_` arm, which leaves everything as it is.
    */
  function RunMachine(env: Env, states: seq<seq<Stmt>>, pc: nat, st: State, k: nat): MachineRun
    decreases k
  {
    if k == 0 then MachineRun([], pc, st, true) else
    var r := if pc < |states| then Exec(env, states[pc], st, Hold) else Ran([], st, Hold);
    if r.next.Jump? || r.next.Stuck? then MachineRun([], pc, st, false) else
    var pc' := if r.next.Pc? then r.next.target else pc;
    var rest := RunMachine(env, states, pc', Edge(r.st), k - 1);
    rest.(logs := [r.log] + rest.logs)
  }

  // ----- Composition and determinism ------------------------------------------

  lemma {:induction false} StepsCompose(env: Env, cfg: Config, st: State, n: nat, a: Seen, m: nat, b: Seen)
    requires Steps(env, cfg, st, n) == Some(a)
    requires Steps(env, a.cfg, a.st, m) == Some(b)
    ensures Steps(env, cfg, st, n + m) == Some(Seen(a.log + b.log, b.cfg, b.st))
    decreases n
  {
    if n == 0 {
      assert a.log + b.log == b.log;
    } else {
      var mv := Step(env, cfg, st);
      var a' := Steps(env, mv.cfg, mv.st, n - 1).value;
      StepsCompose(env, mv.cfg, mv.st, n - 1, a', m, b);
      assert mv.log + (a'.log + b.log) == a.log + b.log;
    }
  }

  lemma ReachesCompose(env: Env, cfg: Config, st: State, a: Seen, b: Seen)
    requires Reaches(env, cfg, st, a) && Reaches(env, a.cfg, a.st, b)
    ensures Reaches(env, cfg, st, Seen(a.log + b.log, b.cfg, b.st))
  {
    var n: nat :| Steps(env, cfg, st, n) == Some(a);
    var m: nat :| Steps(env, a.cfg, a.st, m) == Some(b);
    StepsCompose(env, cfg, st, n, a, m, b);
  }

  lemma ReachesSelf(env: Env, cfg: Config, st: State)
    ensures Reaches(env, cfg, st, Seen([], cfg, st))
  {
    assert Steps(env, cfg, st, 0) == Some(Seen([], cfg, st));
  }

  lemma ReachesByStep(env: Env, cfg: Config, st: State, o: Seen)
    requires Step(env, cfg, st).Move?
    requires var m := Step(env, cfg, st); Reaches(env, m.cfg, m.st, o)
    ensures Reaches(env, cfg, st, Seen(Step(env, cfg, st).log + o.log, o.cfg, o.st))
  {
    var m := Step(env, cfg, st);
    var n: nat :| Steps(env, m.cfg, m.st, n) == Some(o);
    assert Steps(env, cfg, st, n + 1) == Some(Seen(m.log + o.log, o.cfg, o.st));
  }

  lemma CycleBySteps(env: Env, cfg: Config, st: State, n: nat, o: Seen)
    requires Steps(env, cfg, st, n) == Some(o) && StandsAtTick(o.cfg)
    ensures Cycle(env, cfg, st, o.log, Config(o.cfg.todo[1..], o.cfg.k), Edge(o.st))
  {
    assert Reaches(env, cfg, st, o);
  }

  /** Two step counts that both end at a tick are the same run. */
  lemma {:induction false} StepsToTickUnique(env: Env, cfg: Config, st: State, n: nat, a: Seen, m: nat, b: Seen)
    requires Steps(env, cfg, st, n) == Some(a) && StandsAtTick(a.cfg)
    requires Steps(env, cfg, st, m) == Some(b) && StandsAtTick(b.cfg)
    ensures a == b
    decreases n
  {
    if n > 0 && m > 0 {
      var mv := Step(env, cfg, st);
      var a' := Steps(env, mv.cfg, mv.st, n - 1).value;
      var b' := Steps(env, mv.cfg, mv.st, m - 1).value;
      StepsToTickUnique(env, mv.cfg, mv.st, n - 1, a', m - 1, b');
    }
  }

  lemma CycleDeterministic(env: Env, cfg: Config, st: State,
                           log: seq<Event>, c: Config, s: State, log': seq<Event>, c': Config, s': State)
    requires Cycle(env, cfg, st, log, c, s) && Cycle(env, cfg, st, log', c', s')
    ensures log == log' && c == c' && s == s'
  {
    var a: Seen :| Reaches(env, cfg, st, a) && StandsAtTick(a.cfg)
      && log == a.log && c == Config(a.cfg.todo[1..], a.cfg.k) && s == Edge(a.st);
    var b: Seen :| Reaches(env, cfg, st, b) && StandsAtTick(b.cfg)
      && log' == b.log && c' == Config(b.cfg.todo[1..], b.cfg.k) && s' == Edge(b.st);
    var n: nat :| Steps(env, cfg, st, n) == Some(a);
    var m: nat :| Steps(env, cfg, st, m) == Some(b);
    StepsToTickUnique(env, cfg, st, n, a, m, b);
  }

  /** The source language is deterministic: a run is fixed by its length. */
  lemma {:induction false} RunsDeterministic(env: Env, cfg: Config, st: State,
                            logs: seq<seq<Event>>, c: Config, s: State, logs': seq<seq<Event>>, c': Config, s': State)
    requires Runs(env, cfg, st, logs, c, s) && Runs(env, cfg, st, logs', c', s')
    requires |logs| == |logs'|
    ensures logs == logs' && c == c' && s == s'
    decreases |logs|
  {
    if logs != [] {
      var m: Config, sm: State :| Cycle(env, cfg, st, logs[0], m, sm) && Runs(env, m, sm, logs[1..], c, s);
      var m': Config, sm': State :| Cycle(env, cfg, st, logs'[0], m', sm') && Runs(env, m', sm', logs'[1..], c', s');
      CycleDeterministic(env, cfg, st, logs[0], m, sm, logs'[0], m', sm');
      RunsDeterministic(env, m, sm, logs[1..], c, s, logs'[1..], c', s');
      assert logs == [logs[0]] + logs[1..] && logs' == [logs'[0]] + logs'[1..];
    }
  }
}
