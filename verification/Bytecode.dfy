/** Compiling expressions to jumps over a stack (parse/expr.rs, data/expr.rs). */
module Bytecode {
  import opened Wrappers
  import opened Values
  import opened Exprs

  datatype Instr =
    | Load(sym: Symbol, pos: Option<nat>)
    | Push(val: DataValue)
    | Call(op: string, arity: nat)
    | JumpIfFalse(to: nat)
    | Goto(target: nat)

  // ----- recursive evaluation against a tuple -----

  function Eval(ops: Ops, e: Expr, t: Tuple): Result<DataValue>
    decreases e, 1
  {
    match e
    case Binding(_, pos) => if pos.Some? && pos.value < |t| then Success(t[pos.value]) else Failure
    case Const(v) => Success(v)
    case Apply(op, args) =>
      var vs := EvalAll(ops, args, t);
      if vs.Failure? then Failure else ops(op, vs.value)
    case UnboundApply(_, _) => Failure
    case Cond(cs) => EvalClauses(ops, cs, t)
  }

  function EvalAll(ops: Ops, args: seq<Expr>, t: Tuple): (r: Result<seq<DataValue>>)
    ensures r.Success? ==> |r.value| == |args|
    decreases args, 0
  {
    if args == [] then Success([])
    else
      var v := Eval(ops, args[0], t);
      var vs := EvalAll(ops, args[1..], t);
      if v.Failure? || vs.Failure? then Failure else Success([v.value] + vs.value)
  }

  function EvalClauses(ops: Ops, cs: seq<Clause>, t: Tuple): Result<DataValue>
    decreases cs, 0
  {
    if cs == [] then Success(Null)
    else
      assert cs[0].test < cs[0] && cs[0].value < cs[0];
      var c := Eval(ops, cs[0].test, t);
      if c.Failure? || !c.value.Bool? then Failure
      else if c.value.b then Eval(ops, cs[0].value, t)
      else EvalClauses(ops, cs[1..], t)
  }

  // ----- the code of an expression -----

  function Size(e: Expr): nat
    decreases e, 1
  {
    match e
    case Binding(_, _) => 1
    case Const(_) => 1
    case Apply(_, args) => SizeAll(args) + 1
    case UnboundApply(_, _) => 0
    case Cond(cs) => SizeClauses(cs)
  }

  function SizeAll(args: seq<Expr>): nat
    decreases args, 0
  {
    if args == [] then 0 else Size(args[0]) + SizeAll(args[1..])
  }

  function SizeClauses(cs: seq<Clause>): nat
    decreases cs, 0
  {
    if cs == [] then 0
    else
      assert cs[0].test < cs[0] && cs[0].value < cs[0];
      Size(cs[0].test) + 1 + Size(cs[0].value) + 1 + SizeClauses(cs[1..])
  }

  /** The code of an expression placed at position `at`. */
  function Code(e: Expr, at: nat): (r: seq<Instr>)
    ensures |r| == Size(e)
    decreases e, 1
  {
    match e
    case Binding(s, pos) => [Load(s, pos)]
    case Const(v) => [Push(v)]
    case Apply(op, args) => CodeAll(args, at) + [Call(op, |args|)]
    case UnboundApply(_, _) => []
    case Cond(cs) => CodeClauses(cs, at, at + SizeClauses(cs))
  }

  function CodeAll(args: seq<Expr>, at: nat): (r: seq<Instr>)
    ensures |r| == SizeAll(args)
    decreases args, 0
  {
    if args == [] then [] else Code(args[0], at) + CodeAll(args[1..], at + Size(args[0]))
  }

  /** Each clause skips to the next when its test is false, and to `end` when its value has been computed. */
  function CodeClauses(cs: seq<Clause>, at: nat, end: nat): (r: seq<Instr>)
    ensures |r| == SizeClauses(cs)
    decreases cs, 0
  {
    if cs == [] then []
    else
      assert cs[0].test < cs[0] && cs[0].value < cs[0];
      var value := at + Size(cs[0].test) + 1;
      var next := value + Size(cs[0].value) + 1;
      Code(cs[0].test, at) + [JumpIfFalse(next)] + Code(cs[0].value, value) + [Goto(end)] + CodeClauses(cs[1..], next, end)
  }

  /** No function without an implementation. */
  predicate Compilable(e: Expr)
    decreases e, 1
  {
    match e
    case Binding(_, _) => true
    case Const(_) => true
    case Apply(_, args) => AllCompilable(args)
    case UnboundApply(_, _) => false
    case Cond(cs) => ClausesCompilable(cs)
  }

  predicate AllCompilable(args: seq<Expr>)
    decreases args, 0
  {
    args == [] || (Compilable(args[0]) && AllCompilable(args[1..]))
  }

  predicate ClausesCompilable(cs: seq<Clause>)
    decreases cs, 0
  {
    cs == [] ||
    (assert cs[0].test < cs[0] && cs[0].value < cs[0];
     Compilable(cs[0].test) && Compilable(cs[0].value) && ClausesCompilable(cs[1..]))
  }

  // ----- the machine -----

  /** What a run comes to: a value, an error of the expression, or a breakdown of the machine. */
  datatype Outcome = Value(val: DataValue) | Error | Breakdown

  ghost function Run(ops: Ops, code: seq<Instr>, t: Tuple, pc: nat, stack: seq<DataValue>): Outcome
    decreases if pc < |code| then |code| - pc else 0
  {
    if pc > |code| then Breakdown
    else if pc == |code| then (if stack == [] then Breakdown else Value(stack[|stack| - 1]))
    else
      match code[pc]
      case Load(_, pos) => if pos.Some? && pos.value < |t| then Run(ops, code, t, pc + 1, stack + [t[pos.value]]) else Error
      case Push(v) => Run(ops, code, t, pc + 1, stack + [v])
      case Call(op, arity) =>
        if arity > |stack| then Breakdown
        else
          var frame := |stack| - arity;
          var r := ops(op, stack[frame..]);
          if r.Failure? then Error else Run(ops, code, t, pc + 1, stack[..frame] + [r.value])
      case JumpIfFalse(to) =>
        if stack == [] then Breakdown
        else
          var c := stack[|stack| - 1];
          if !c.Bool? then Error
          else if c.b then Run(ops, code, t, pc + 1, stack[..|stack| - 1])
          else if to <= pc then Breakdown
          else Run(ops, code, t, to, stack[..|stack| - 1])
      case Goto(to) => if to <= pc then Breakdown else Run(ops, code, t, to, stack)
  }

  /** The machine itself; it runs whatever code does not break it down. */
  method EvalBytecode(ops: Ops, code: seq<Instr>, t: Tuple) returns (r: Result<DataValue>)
    requires Run(ops, code, t, 0, []) != Breakdown
    ensures r == match Run(ops, code, t, 0, []) case Value(v) => Success(v) case _ => Failure
  {
    var pc: nat, stack: seq<DataValue> := 0, [];
    while pc != |code|
      invariant Run(ops, code, t, 0, []) == Run(ops, code, t, pc, stack)
      invariant pc <= |code|
      decreases |code| - pc
    {
      match code[pc]
      case Load(_, pos) =>
        if pos.None? || pos.value >= |t| {
          return Failure;
        }
        stack := stack + [t[pos.value]];
        pc := pc + 1;
      case Push(v) =>
        stack := stack + [v];
        pc := pc + 1;
      case Call(op, arity) =>
        var frame := |stack| - arity;
        var result := ops(op, stack[frame..]);
        if result.Failure? {
          return Failure;
        }
        stack := stack[..frame] + [result.value];
        pc := pc + 1;
      case JumpIfFalse(to) =>
        var c := stack[|stack| - 1];
        if !c.Bool? {
          return Failure;
        }
        stack := stack[..|stack| - 1];
        if c.b {
          pc := pc + 1;
        } else {
          pc := to;
        }
      case Goto(to) =>
        pc := to;
    }
    r := Success(stack[|stack| - 1]);
  }

  // ----- compiled code computes what evaluation does -----

  /** The last test is the constant true, so that some clause is always taken. */
  predicate EndsTrue(cs: seq<Clause>) {
    cs != [] && cs[|cs| - 1].test == Const(Bool(true))
  }

  /** Every conditional has a last resort. */
  ghost predicate CondsEnd(e: Expr)
    decreases e, 1
  {
    match e
    case Binding(_, _) => true
    case Const(_) => true
    case Apply(_, args) => AllCondsEnd(args)
    case UnboundApply(_, _) => true
    case Cond(cs) => EndsTrue(cs) && ClausesCondsEnd(cs)
  }

  ghost predicate AllCondsEnd(args: seq<Expr>)
    decreases args, 0
  {
    args == [] || (CondsEnd(args[0]) && AllCondsEnd(args[1..]))
  }

  ghost predicate ClausesCondsEnd(cs: seq<Clause>)
    decreases cs, 0
  {
    cs == [] ||
    (assert cs[0].test < cs[0] && cs[0].value < cs[0];
     CondsEnd(cs[0].test) && CondsEnd(cs[0].value) && ClausesCondsEnd(cs[1..]))
  }

  /** `part` stands in `code` at position `at`. */
  ghost predicate At(code: seq<Instr>, at: nat, part: seq<Instr>) {
    at + |part| <= |code| && code[at..at + |part|] == part
  }

  lemma AtSplit(code: seq<Instr>, at: nat, a: seq<Instr>, b: seq<Instr>)
    requires At(code, at, a + b)
    ensures At(code, at, a) && At(code, at + |a|, b)
  {
    var part := code[at..at + |a + b|];
    assert code[at..at + |a|] == part[..|a|] == a;
    assert code[at + |a|..at + |a| + |b|] == part[|a|..] == b;
  }

  lemma AtOne(code: seq<Instr>, at: nat, i: Instr)
    requires At(code, at, [i])
    ensures at < |code| && code[at] == i
  {
    assert code[at] == code[at..at + 1][0];
  }

  /** Running the code of an expression pushes its value, or stops with its error. */
  lemma {:induction false} RunCode(ops: Ops, e: Expr, t: Tuple, code: seq<Instr>, at: nat, stack: seq<DataValue>)
    requires Compilable(e) && CondsEnd(e) && At(code, at, Code(e, at))
    ensures Run(ops, code, t, at, stack) ==
            match Eval(ops, e, t) case Success(v) => Run(ops, code, t, at + Size(e), stack + [v]) case Failure => Error
    decreases e, 1
  {
    hide Run, CodeAll, CodeClauses, SizeAll, SizeClauses, EvalAll, EvalClauses, AllCompilable, ClausesCompilable, AllCondsEnd, ClausesCondsEnd;
    match e
    case Binding(s, pos) =>
      AtOne(code, at, Load(s, pos));
      RunLeaf(ops, code, t, at, stack);
    case Const(v) =>
      AtOne(code, at, Push(v));
      RunLeaf(ops, code, t, at, stack);
    case Apply(op, args) =>
      AtSplit(code, at, CodeAll(args, at), [Call(op, |args|)]);
      RunAll(ops, args, t, code, at, stack);
      var vs := EvalAll(ops, args, t);
      if vs.Success? {
        AtOne(code, at + SizeAll(args), Call(op, |args|));
        RunCall(ops, code, t, at + SizeAll(args), stack, vs.value, op);
      }
    case Cond(cs) =>
      RunClauses(ops, cs, t, code, at, at + SizeClauses(cs), stack);
  }

  lemma RunLeaf(ops: Ops, code: seq<Instr>, t: Tuple, pc: nat, stack: seq<DataValue>)
    requires pc < |code|
    ensures code[pc].Push? ==> Run(ops, code, t, pc, stack) == Run(ops, code, t, pc + 1, stack + [code[pc].val])
    ensures code[pc].Load? ==> var pos := code[pc].pos;
            Run(ops, code, t, pc, stack) == if pos.Some? && pos.value < |t| then Run(ops, code, t, pc + 1, stack + [t[pos.value]]) else Error
  {
  }

  lemma RunCall(ops: Ops, code: seq<Instr>, t: Tuple, pc: nat, stack: seq<DataValue>, vs: seq<DataValue>, op: string)
    requires pc < |code| && code[pc] == Call(op, |vs|)
    ensures Run(ops, code, t, pc, stack + vs) ==
            match ops(op, vs) case Success(v) => Run(ops, code, t, pc + 1, stack + [v]) case Failure => Error
  {
    assert (stack + vs)[|stack|..] == vs && (stack + vs)[..|stack|] == stack;
  }

  lemma {:induction false} RunAll(ops: Ops, args: seq<Expr>, t: Tuple, code: seq<Instr>, at: nat, stack: seq<DataValue>)
    requires AllCompilable(args) && AllCondsEnd(args) && At(code, at, CodeAll(args, at))
    ensures Run(ops, code, t, at, stack) ==
            match EvalAll(ops, args, t) case Success(vs) => Run(ops, code, t, at + SizeAll(args), stack + vs) case Failure => Error
    decreases args, 0
  {
    hide Run, Code, Eval, Compilable, CondsEnd;
    if args == [] {
      assert stack + [] == stack;
    } else {
      AtSplit(code, at, Code(args[0], at), CodeAll(args[1..], at + Size(args[0])));
      RunCode(ops, args[0], t, code, at, stack);
      var v := Eval(ops, args[0], t);
      if v.Success? {
        RunAll(ops, args[1..], t, code, at + Size(args[0]), stack + [v.value]);
        var vs := EvalAll(ops, args[1..], t);
        if vs.Success? {
          assert stack + [v.value] + vs.value == stack + ([v.value] + vs.value);
        }
      }
    }
  }

  lemma RunTest(ops: Ops, code: seq<Instr>, t: Tuple, pc: nat, stack: seq<DataValue>, v: DataValue, to: nat)
    requires pc < |code| && code[pc] == JumpIfFalse(to) && pc < to
    ensures Run(ops, code, t, pc, stack + [v]) ==
            if !v.Bool? then Error else Run(ops, code, t, if v.b then pc + 1 else to, stack)
  {
    assert (stack + [v])[..|stack + [v]| - 1] == stack;
  }

  lemma RunGoto(ops: Ops, code: seq<Instr>, t: Tuple, pc: nat, stack: seq<DataValue>, to: nat)
    requires pc < |code| && code[pc] == Goto(to) && pc < to
    ensures Run(ops, code, t, pc, stack) == Run(ops, code, t, to, stack)
  {
  }

  /** The code of one clause. */
  ghost function OneClause(c: Clause, at: nat, end: nat): (r: seq<Instr>)
    ensures |r| == Size(c.test) + 1 + Size(c.value) + 1
  {
    var value := at + Size(c.test) + 1;
    Code(c.test, at) + [JumpIfFalse(value + Size(c.value) + 1)] + Code(c.value, value) + [Goto(end)]
  }

  lemma ClauseCode(cs: seq<Clause>, at: nat, end: nat)
    requires cs != []
    ensures var next := at + Size(cs[0].test) + 1 + Size(cs[0].value) + 1;
            && CodeClauses(cs, at, end) == OneClause(cs[0], at, end) + CodeClauses(cs[1..], next, end)
            && SizeClauses(cs) == next - at + SizeClauses(cs[1..])
    ensures ClausesCompilable(cs) <==> Compilable(cs[0].test) && Compilable(cs[0].value) && ClausesCompilable(cs[1..])
  {
    hide Code, Compilable;
  }

  lemma OneClauseAt(c: Clause, code: seq<Instr>, at: nat, end: nat)
    requires At(code, at, OneClause(c, at, end))
    ensures var value := at + Size(c.test) + 1;
            var next := value + Size(c.value) + 1;
            && At(code, at, Code(c.test, at))
            && value - 1 < |code| && code[value - 1] == JumpIfFalse(next)
            && At(code, value, Code(c.value, value))
            && next - 1 < |code| && code[next - 1] == Goto(end)
  {
    hide Code, Size, At;
    var value := at + Size(c.test) + 1;
    var next := value + Size(c.value) + 1;
    var test, val := Code(c.test, at), Code(c.value, value);
    AtSplit(code, at, test + [JumpIfFalse(next)] + val, [Goto(end)]);
    AtSplit(code, at, test + [JumpIfFalse(next)], val);
    AtSplit(code, at, test, [JumpIfFalse(next)]);
    AtOne(code, value - 1, JumpIfFalse(next));
    AtOne(code, next - 1, Goto(end));
  }

  /** The parts of a clause and where they stand. */
  lemma ClauseAt(cs: seq<Clause>, code: seq<Instr>, at: nat, end: nat)
    requires cs != [] && At(code, at, CodeClauses(cs, at, end))
    ensures cs[0].test < cs[0] && cs[0].value < cs[0]
    ensures var value := at + Size(cs[0].test) + 1;
            var next := value + Size(cs[0].value) + 1;
            && At(code, at, Code(cs[0].test, at))
            && value - 1 < |code| && code[value - 1] == JumpIfFalse(next)
            && At(code, value, Code(cs[0].value, value))
            && next - 1 < |code| && code[next - 1] == Goto(end)
            && At(code, next, CodeClauses(cs[1..], next, end))
            && SizeClauses(cs) == next - at + SizeClauses(cs[1..])
  {
    hide Code, CodeClauses, OneClause, Size, SizeClauses, At;
    var next := at + Size(cs[0].test) + 1 + Size(cs[0].value) + 1;
    ClauseCode(cs, at, end);
    AtSplit(code, at, OneClause(cs[0], at, end), CodeClauses(cs[1..], next, end));
    OneClauseAt(cs[0], code, at, end);
  }

  /** No test of the clauses comes out true, and none fails. */
  predicate AllFalse(ops: Ops, cs: seq<Clause>, t: Tuple) {
    cs == [] || (Eval(ops, cs[0].test, t) == Success(Bool(false)) && AllFalse(ops, cs[1..], t))
  }

  lemma {:induction false} EndsTrueTaken(ops: Ops, cs: seq<Clause>, t: Tuple)
    requires EndsTrue(cs)
    ensures !AllFalse(ops, cs, t)
    decreases |cs|
  {
    if |cs| > 1 {
      EndsTrueTaken(ops, cs[1..], t);
    }
  }

  lemma NoClauses(at: nat, end: nat)
    ensures SizeClauses([]) == 0 && CodeClauses([], at, end) == []
  {
  }

  /** Clauses push the selected value, or, when none is selected, nothing at all. */
  lemma {:induction false} RunSelects(ops: Ops, cs: seq<Clause>, t: Tuple, code: seq<Instr>, at: nat, end: nat, stack: seq<DataValue>)
    requires ClausesCompilable(cs) && ClausesCondsEnd(cs) && At(code, at, CodeClauses(cs, at, end)) && end == at + SizeClauses(cs)
    ensures Run(ops, code, t, at, stack) ==
            if AllFalse(ops, cs, t) then Run(ops, code, t, end, stack)
            else match EvalClauses(ops, cs, t) case Success(v) => Run(ops, code, t, end, stack + [v]) case Failure => Error
    decreases cs, 0
  {
    hide Run, Code, CodeClauses, Eval, At, SizeClauses, Compilable, CondsEnd, Size;
    if cs == [] {
      NoClauses(at, end);
    } else {
      ClauseAt(cs, code, at, end);
      var value := at + Size(cs[0].test) + 1;
      var next := value + Size(cs[0].value) + 1;
      RunCode(ops, cs[0].test, t, code, at, stack);
      var c := Eval(ops, cs[0].test, t);
      if c.Success? {
        RunTest(ops, code, t, value - 1, stack, c.value, next);
        if c.value.Bool? && c.value.b {
          RunCode(ops, cs[0].value, t, code, value, stack);
          var v := Eval(ops, cs[0].value, t);
          if v.Success? {
            RunGoto(ops, code, t, next - 1, stack + [v.value], end);
          }
        } else {
          RunSelects(ops, cs[1..], t, code, next, end, stack);
        }
      }
    }
  }

  lemma {:induction false} RunClauses(ops: Ops, cs: seq<Clause>, t: Tuple, code: seq<Instr>, at: nat, end: nat, stack: seq<DataValue>)
    requires ClausesCompilable(cs) && ClausesCondsEnd(cs) && EndsTrue(cs)
    requires At(code, at, CodeClauses(cs, at, end)) && end == at + SizeClauses(cs)
    ensures Run(ops, code, t, at, stack) ==
            match EvalClauses(ops, cs, t) case Success(v) => Run(ops, code, t, end, stack + [v]) case Failure => Error
    decreases cs, 1
  {
    hide Run, Code, CodeClauses, Eval, EvalClauses;
    RunSelects(ops, cs, t, code, at, end, stack);
    EndsTrueTaken(ops, cs, t);
  }

  /** Compiled code gives the value or the error of the expression, and never breaks the machine. */
  lemma CompiledRun(ops: Ops, e: Expr, t: Tuple)
    requires Compilable(e) && CondsEnd(e)
    ensures Run(ops, Code(e, 0), t, 0, []) == match Eval(ops, e, t) case Success(v) => Value(v) case Failure => Error
  {
    hide Code, Eval;
    var code := Code(e, 0);
    assert code[0..0 + |code|] == code;
    RunCode(ops, e, t, code, 0, []);
  }

  /** A conditional on its own agrees with evaluation exactly if some test is not false; otherwise the stack stays empty. */
  lemma CondAgreesIff(ops: Ops, cs: seq<Clause>, t: Tuple)
    requires ClausesCompilable(cs) && ClausesCondsEnd(cs)
    ensures (Run(ops, Code(Cond(cs), 0), t, 0, []) == match Eval(ops, Cond(cs), t) case Success(v) => Value(v) case Failure => Error) <==>
            !AllFalse(ops, cs, t)
    ensures AllFalse(ops, cs, t) ==> Run(ops, Code(Cond(cs), 0), t, 0, []) == Breakdown && Eval(ops, Cond(cs), t) == Success(Null)
  {
    hide CodeClauses, EvalClauses;
    var code := Code(Cond(cs), 0);
    assert code[0..0 + |code|] == code;
    RunSelects(ops, cs, t, code, 0, SizeClauses(cs), []);
    AllFalseIsNull(ops, cs, t);
  }

  lemma {:induction false} AllFalseIsNull(ops: Ops, cs: seq<Clause>, t: Tuple)
    ensures AllFalse(ops, cs, t) ==> EvalClauses(ops, cs, t) == Success(Null)
    decreases |cs|
  {
    if cs != [] {
      AllFalseIsNull(ops, cs[1..], t);
    }
  }

  // ----- jumps that are patched -----

  lemma NothingLeft(cs: seq<Clause>, at: nat)
    requires cs == []
    ensures CodeClauses(cs, at, 0) == [] && ClausesCompilable(cs)
  {
  }

  /** Where the jumps to the end stand. */
  ghost function GotoPositions(cs: seq<Clause>, at: nat): (r: seq<nat>)
    ensures |r| == |cs|
  {
    if cs == [] then []
    else
      var next := at + Size(cs[0].test) + 1 + Size(cs[0].value) + 1;
      [next - 1] + GotoPositions(cs[1..], next)
  }

  lemma {:induction false} GotosInside(cs: seq<Clause>, at: nat, p: nat)
    requires p < |cs|
    ensures at <= GotoPositions(cs, at)[p] < at + SizeClauses(cs)
    decreases |cs|
  {
    hide Size;
    if p > 0 {
      GotosInside(cs[1..], at + Size(cs[0].test) + 1 + Size(cs[0].value) + 1, p - 1);
    }
  }

  /** The jump of clause `i` follows its value. */
  lemma {:induction false} GotoAt(cs: seq<Clause>, start: nat, i: nat, at: nat)
    requires i < |cs| && at + SizeClauses(cs[i..]) == start + SizeClauses(cs)
    ensures GotoPositions(cs, start)[i] == at + Size(cs[i].test) + 1 + Size(cs[i].value)
    decreases |cs|
  {
    hide Size;
    if i == 0 {
      assert cs[0..] == cs;
    } else {
      assert cs[1..][i - 1..] == cs[i..];
      GotoAt(cs[1..], start + Size(cs[0].test) + 1 + Size(cs[0].value) + 1, i - 1, at);
    }
  }

  ghost function Patched(code: seq<Instr>, ps: seq<nat>, to: nat): seq<Instr> {
    seq(|code|, i requires 0 <= i < |code| => if i in ps then Goto(to) else code[i])
  }

  lemma PatchedNone(code: seq<Instr>, to: nat)
    ensures Patched(code, [], to) == code
  {
  }

  lemma PatchMore(code: seq<Instr>, ps: seq<nat>, p: nat, to: nat)
    requires p < |code|
    ensures Patched(code, ps + [p], to) == Patched(code, ps, to)[p := Goto(to)]
  {
  }

  lemma PatchedFirst(pre: seq<Instr>, open: seq<Instr>, closed: seq<Instr>, rest: seq<Instr>, ps: seq<nat>, next: nat, total: nat)
    requires open != [] && next == |pre| + |open| && closed == open[|open| - 1 := Goto(total)] && forall p :: p in ps ==> p >= next
    ensures Patched(pre + (open + rest), [next - 1] + ps, total) == Patched(pre + closed + rest, ps, total)
  {
    var a, b := pre + (open + rest), pre + closed + rest;
    forall i | 0 <= i < |a|
      ensures Patched(a, [next - 1] + ps, total)[i] == Patched(b, ps, total)[i]
    {
    }
  }

  /** Patching the jumps gives the code with the right end. */
  lemma {:induction false} PatchedClauses(pre: seq<Instr>, cs: seq<Clause>, start: nat, total: nat)
    requires |pre| == start
    ensures Patched(pre + CodeClauses(cs, start, 0), GotoPositions(cs, start), total) == pre + CodeClauses(cs, start, total)
    decreases |cs|
  {
    hide Code, Size, Patched;
    if cs == [] {
      PatchedNone(pre, total);
      assert pre + [] == pre;
    } else {
      var next := start + Size(cs[0].test) + 1 + Size(cs[0].value) + 1;
      ClauseCode(cs, start, 0);
      ClauseCode(cs, start, total);
      var open, closed := OneClause(cs[0], start, 0), OneClause(cs[0], start, total);
      var rest, ps := CodeClauses(cs[1..], next, 0), GotoPositions(cs[1..], next);
      assert |open| == |closed| == next - start && closed == open[next - 1 - start := Goto(total)];
      PatchedClauses(pre + closed, cs[1..], next, total);
      forall p | p in ps
        ensures p >= next
      {
        var k :| 0 <= k < |ps| && ps[k] == p;
        GotosInside(cs[1..], next, k);
      }
      PatchedFirst(pre, open, closed, rest, ps, next, total);
      assert pre + closed + CodeClauses(cs[1..], next, total) == pre + (closed + CodeClauses(cs[1..], next, total));
    }
  }

  /** A clause as the compiler leaves it: the false jump is patched at once. */
  lemma Amended(before: seq<Instr>, c: Clause, code: seq<Instr>)
    requires var at := |before|;
             var value := at + Size(c.test) + 1;
             code == (before + Code(c.test, at) + [JumpIfFalse(0)] + Code(c.value, value) + [Goto(0)])[value - 1 := JumpIfFalse(value + Size(c.value) + 1)]
    ensures code == before + OneClause(c, |before|, 0)
  {
    hide Code;
  }

  // ----- the compiler -----

  class Collector {
    var code: seq<Instr>

    constructor ()
      ensures code == []
    {
      code := [];
    }

    /** Appends the code of an expression; fails exactly if a function has no implementation. */
    method Compile(e: Expr) returns (ok: bool)
      modifies this
      ensures ok <==> Compilable(e)
      ensures ok ==> code == old(code) + Code(e, |old(code)|)
      decreases e, 1
    {
      match e
      case Binding(s, pos) =>
        code := code + [Load(s, pos)];
        return true;
      case Const(v) =>
        code := code + [Push(v)];
        return true;
      case Apply(op, args) =>
        ok := CompileAll(args);
        if ok {
          code := code + [Call(op, |args|)];
        }
      case UnboundApply(_, _) =>
        return false;
      case Cond(cs) =>
        ok := CompileClauses(cs);
    }

    method CompileAll(args: seq<Expr>) returns (ok: bool)
      modifies this
      ensures ok <==> AllCompilable(args)
      ensures ok ==> code == old(code) + CodeAll(args, |old(code)|)
      decreases args, 0
    {
      hide Code, Compilable;
      for i := 0 to |args|
        invariant AllCompilable(args) <==> AllCompilable(args[i..])
        invariant code + CodeAll(args[i..], |code|) == old(code) + CodeAll(args, |old(code)|)
      {
        assert args[i..][1..] == args[i + 1..];
        var at := |code|;
        ghost var before := code;
        ok := Compile(args[i]);
        if !ok {
          return;
        }
        assert code + CodeAll(args[i + 1..], |code|) == before + CodeAll(args[i..], |before|);
      }
      return true;
    }

    /** Sets the jumps at the given positions. */
    method Patch(exits: seq<nat>, to: nat)
      requires forall p :: 0 <= p < |exits| ==> exits[p] < |code|
      modifies this
      ensures code == Patched(old(code), exits, to)
    {
      PatchedNone(code, to);
      for p := 0 to |exits|
        invariant |code| == |old(code)| && code == Patched(old(code), exits[..p], to)
      {
        assert exits[..p + 1] == exits[..p] + [exits[p]];
        PatchMore(old(code), exits[..p], exits[p], to);
        code := code[exits[p] := Goto(to)];
      }
      assert exits[..|exits|] == exits;
    }

    /** Emits one clause; its jump to the end is still open. */
    method CompileClause(c: Clause) returns (ok: bool)
      modifies this
      ensures ok <==> Compilable(c.test) && Compilable(c.value)
      ensures ok ==> code == old(code) + OneClause(c, |old(code)|, 0)
      decreases c, 0
    {
      hide Code, Compilable, OneClause;
      ok := Compile(c.test);
      if !ok {
        return;
      }
      code := code + [JumpIfFalse(0)];
      var amend := |code| - 1;
      ok := Compile(c.value);
      if !ok {
        return;
      }
      code := code + [Goto(0)];
      code := code[amend := JumpIfFalse(|code|)];
      Amended(old(code), c, code);
    }

    /** Emits the clauses with jumps to nowhere, then patches them. */
    method CompileClauses(cs: seq<Clause>) returns (ok: bool)
      modifies this
      ensures ok <==> ClausesCompilable(cs)
      ensures ok ==> code == old(code) + CodeClauses(cs, |old(code)|, |old(code)| + SizeClauses(cs))
      decreases cs, 0
    {
      hide Code, Compilable, CodeClauses, ClausesCompilable, OneClause, Size, SizeClauses, GotoPositions;
      var exits: seq<nat> := [];
      ghost var start := |code|;
      for i := 0 to |cs|
        invariant start == |old(code)| <= |code|
        invariant ClausesCompilable(cs) <==> ClausesCompilable(cs[i..])
        invariant code + CodeClauses(cs[i..], |code|, 0) == old(code) + CodeClauses(cs, start, 0)
        invariant |code| + SizeClauses(cs[i..]) == start + SizeClauses(cs)
        invariant exits == GotoPositions(cs, start)[..i]
      {
        ClauseCode(cs[i..], |code|, 0);
        assert cs[i..][1..] == cs[i + 1..] && cs[i..][0] == cs[i];
        ghost var before := code;
        ok := CompileClause(cs[i]);
        if !ok {
          return;
        }
        exits := exits + [|code| - 1];
        GotoAt(cs, start, i, |before|);
        assert code + CodeClauses(cs[i + 1..], |code|, 0) == before + CodeClauses(cs[i..], |before|, 0);
      }
      NothingLeft(cs[|cs|..], |code|);
      assert code + [] == code;
      assert code == old(code) + CodeClauses(cs, start, 0);
      var total := |code|;
      forall p | 0 <= p < |exits|
        ensures exits[p] < |code|
      {
        GotosInside(cs, start, p);
      }
      Patch(exits, total);
      PatchedClauses(old(code), cs, start, total);
      return true;
    }
  }

  // ----- conditionals as the parser builds them -----

  lemma {:induction false} EachCondsEnd(args: seq<Expr>, i: nat)
    requires AllCondsEnd(args) && i < |args|
    ensures CondsEnd(args[i])
    decreases |args|
  {
    if i > 0 {
      EachCondsEnd(args[1..], i - 1);
    }
  }

  lemma {:induction false} EachCompilable(args: seq<Expr>, i: nat)
    requires AllCompilable(args) && i < |args|
    ensures Compilable(args[i])
    decreases |args|
  {
    if i > 0 {
      EachCompilable(args[1..], i - 1);
    }
  }

  lemma {:induction false} ClausesFromEach(cs: seq<Clause>)
    ensures (forall i :: 0 <= i < |cs| ==> CondsEnd(cs[i].test) && CondsEnd(cs[i].value)) ==> ClausesCondsEnd(cs)
    ensures (forall i :: 0 <= i < |cs| ==> Compilable(cs[i].test) && Compilable(cs[i].value)) ==> ClausesCompilable(cs)
    decreases |cs|
  {
    hide CondsEnd, Compilable;
    if cs != [] {
      ClausesFromEach(cs[1..]);
    }
  }

  /** Where the arguments of a conditional end up. */
  ghost predicate FromArgs(args: seq<Expr>, cs: seq<Clause>) {
    && |cs| >= |args| / 2
    && (forall i :: 0 <= i < |args| / 2 ==> cs[i] == Clause(args[2 * i], args[2 * i + 1]))
    && (|args| % 2 == 1 ==> |cs| > |args| / 2 && cs[|args| / 2] == Clause(Const(Null), args[|args| - 1]))
    && (forall i :: (|args| + 1) / 2 <= i < |cs| ==> cs[i] == Clause(Const(Bool(true)), Const(Null)))
  }

  /** Pairs up the arguments and sees to it that the last test is true. */
  method BuildCond(args: seq<Expr>) returns (r: Result<Expr>)
    ensures r.Success? <==> args != []
    ensures r.Success? ==> r.value.Cond? && FromArgs(args, r.value.clauses) && EndsTrue(r.value.clauses)
    ensures r.Success? && AllCondsEnd(args) ==> CondsEnd(r.value)
    ensures r.Success? && AllCompilable(args) ==> Compilable(r.value)
  {
    hide CondsEnd, Compilable, ClausesCondsEnd, ClausesCompilable;
    if args == [] {
      return Failure;
    }
    var all := args;
    if |args| % 2 == 1 {
      all := args[..|args| - 1] + [Const(Null)] + [args[|args| - 1]];
    }
    var cs: seq<Clause> := [];
    while 2 * |cs| < |all|
      invariant 2 * |cs| <= |all|
      invariant forall i :: 0 <= i < |cs| ==> cs[i] == Clause(all[2 * i], all[2 * i + 1])
    {
      cs := cs + [Clause(all[2 * |cs|], all[2 * |cs| + 1])];
    }
    if cs[|cs| - 1].test != Const(Bool(true)) {
      cs := cs + [Clause(Const(Bool(true)), Const(Null))];
    }
    BuiltIsGood(args, cs);
    r := Success(Cond(cs));
  }

  /** The condition, the value for true, and the value for false or null. */
  method BuildIf(args: seq<Expr>) returns (r: Result<Expr>)
    ensures r.Success? <==> |args| == 2 || |args| == 3
    ensures r.Success? ==> r.value == Cond([Clause(args[0], args[1]), Clause(Const(Bool(true)), if |args| == 3 then args[2] else Const(Null))])
    ensures r.Success? && AllCondsEnd(args) ==> CondsEnd(r.value)
    ensures r.Success? && AllCompilable(args) ==> Compilable(r.value)
  {
    if |args| != 2 && |args| != 3 {
      return Failure;
    }
    var cs := [Clause(args[0], args[1])];
    cs := cs + [Clause(Const(Bool(true)), if |args| == 3 then args[2] else Const(Null))];
    IfIsGood(args, cs);
    r := Success(Cond(cs));
  }

  lemma BuiltIsGood(args: seq<Expr>, cs: seq<Clause>)
    requires FromArgs(args, cs) && EndsTrue(cs)
    ensures AllCondsEnd(args) ==> CondsEnd(Cond(cs))
    ensures AllCompilable(args) ==> Compilable(Cond(cs))
  {
    ClausesFromEach(cs);
    forall i | 0 <= i < |args|
      ensures AllCondsEnd(args) ==> CondsEnd(args[i])
      ensures AllCompilable(args) ==> Compilable(args[i])
    {
      if AllCondsEnd(args) { EachCondsEnd(args, i); }
      if AllCompilable(args) { EachCompilable(args, i); }
    }
    assert CondsEnd(Const(Null)) && CondsEnd(Const(Bool(true))) && Compilable(Const(Null)) && Compilable(Const(Bool(true)));
    hide CondsEnd, Compilable, AllCondsEnd, AllCompilable;
    forall i | 0 <= i < |cs|
      ensures cs[i].test in args || cs[i].test == Const(Null) || cs[i].test == Const(Bool(true))
      ensures cs[i].value in args || cs[i].value == Const(Null)
    {
    }
    CondFromClauses(cs);
  }

  lemma CondFromClauses(cs: seq<Clause>)
    ensures CondsEnd(Cond(cs)) <==> EndsTrue(cs) && ClausesCondsEnd(cs)
    ensures Compilable(Cond(cs)) <==> ClausesCompilable(cs)
  {
  }

  lemma IfIsGood(args: seq<Expr>, cs: seq<Clause>)
    requires |args| == 2 || |args| == 3
    requires cs == [Clause(args[0], args[1]), Clause(Const(Bool(true)), if |args| == 3 then args[2] else Const(Null))]
    ensures AllCondsEnd(args) ==> CondsEnd(Cond(cs))
    ensures AllCompilable(args) ==> Compilable(Cond(cs))
  {
    ClausesFromEach(cs);
    forall i | 0 <= i < |args|
      ensures AllCondsEnd(args) ==> CondsEnd(args[i])
      ensures AllCompilable(args) ==> Compilable(args[i])
    {
      if AllCondsEnd(args) { EachCondsEnd(args, i); }
      if AllCompilable(args) { EachCompilable(args, i); }
    }
  }

  /** An unpaired last argument is never the default: its test is null, which is no truth value. */
  lemma {:induction false} UnpairedNeverTaken(ops: Ops, cs: seq<Clause>, more: seq<Clause>, d: Expr, t: Tuple)
    requires AllFalse(ops, cs, t)
    ensures EvalClauses(ops, cs + [Clause(Const(Null), d)] + more, t) == Failure
    decreases |cs|
  {
    var all := cs + [Clause(Const(Null), d)] + more;
    if cs != [] {
      assert all[1..] == cs[1..] + [Clause(Const(Null), d)] + more;
      UnpairedNeverTaken(ops, cs[1..], more, d, t);
    }
  }

  /** Clauses after one that is selected, or whose test fails, change nothing. */
  lemma {:induction false} LaterClausesIdle(ops: Ops, cs: seq<Clause>, more: seq<Clause>, t: Tuple)
    requires !AllFalse(ops, cs, t)
    ensures EvalClauses(ops, cs + more, t) == EvalClauses(ops, cs, t)
    decreases |cs|
  {
    hide Eval;
    assert (cs + more)[0] == cs[0] && (cs + more)[1..] == cs[1..] + more;
    if Eval(ops, cs[0].test, t) == Success(Bool(false)) {
      LaterClausesIdle(ops, cs[1..], more, t);
    }
  }

  /** A conditional built from an odd number of arguments takes the last one for a default exactly if that is not called for,
      or fails itself. */
  lemma UnpairedDefaultIff(ops: Ops, args: seq<Expr>, cs: seq<Clause>, t: Tuple)
    requires |args| % 2 == 1 && FromArgs(args, cs)
    ensures var pairs, d := cs[..|args| / 2], args[|args| - 1];
            && (Eval(ops, Cond(cs), t) == (if AllFalse(ops, pairs, t) then Eval(ops, d, t) else Eval(ops, Cond(pairs), t)) <==>
                !AllFalse(ops, pairs, t) || Eval(ops, d, t) == Failure)
            && (AllFalse(ops, pairs, t) ==> Eval(ops, Cond(cs), t) == Failure)
  {
    hide AllFalse, EvalClauses;
    var n, d := |args| / 2, args[|args| - 1];
    var pairs, more := cs[..n], cs[n + 1..];
    assert cs == pairs + [Clause(Const(Null), d)] + more == pairs + cs[n..];
    if AllFalse(ops, pairs, t) {
      UnpairedNeverTaken(ops, pairs, more, d, t);
    } else {
      LaterClausesIdle(ops, pairs, cs[n..], t);
    }
  }

  // ----- variables by name and by position -----

  /** Fills in where each variable stands; fails on a variable that stands nowhere. */
  function Filled(e: Expr, where: map<Symbol, nat>): Result<Expr>
    decreases e, 1
  {
    match e
    case Binding(s, _) => if s in where then Success(Binding(s, Some(where[s]))) else Failure
    case Const(_) => Success(e)
    case Apply(op, args) =>
      var fs := FilledAll(args, where);
      if fs.Failure? then Failure else Success(Apply(op, fs.value))
    case UnboundApply(_, _) => Failure
    case Cond(cs) =>
      var fs := FilledClauses(cs, where);
      if fs.Failure? then Failure else Success(Cond(fs.value))
  }

  function FilledAll(args: seq<Expr>, where: map<Symbol, nat>): (r: Result<seq<Expr>>)
    ensures r.Success? ==> |r.value| == |args|
    decreases args, 0
  {
    if args == [] then Success([])
    else
      var f, fs := Filled(args[0], where), FilledAll(args[1..], where);
      if f.Failure? || fs.Failure? then Failure else Success([f.value] + fs.value)
  }

  function FilledClauses(cs: seq<Clause>, where: map<Symbol, nat>): Result<seq<Clause>>
    decreases cs, 0
  {
    if cs == [] then Success([])
    else
      assert cs[0].test < cs[0] && cs[0].value < cs[0];
      var a, b, fs := Filled(cs[0].test, where), Filled(cs[0].value, where), FilledClauses(cs[1..], where);
      if a.Failure? || b.Failure? || fs.Failure? then Failure else Success([Clause(a.value, b.value)] + fs.value)
  }

  /** The tuple holds the variables where `where` says. */
  ghost predicate Lays(where: map<Symbol, nat>, t: Tuple, env: map<Symbol, DataValue>) {
    where.Keys == env.Keys && forall s :: s in where ==> where[s] < |t| && t[where[s]] == env[s]
  }

  /** Evaluation by position is evaluation by name. */
  lemma {:induction false} FilledEval(ops: Ops, e: Expr, where: map<Symbol, nat>, t: Tuple, env: map<Symbol, DataValue>)
    requires Lays(where, t, env) && Filled(e, where).Success?
    ensures Eval(ops, Filled(e, where).value, t) == EvalIn(ops, e, env)
    decreases e, 1
  {
    match e
    case Binding(_, _) =>
    case Const(_) =>
    case Apply(_, args) => FilledEvalAll(ops, args, where, t, env);
    case Cond(cs) => FilledEvalClauses(ops, cs, where, t, env);
  }

  lemma {:induction false} FilledEvalAll(ops: Ops, args: seq<Expr>, where: map<Symbol, nat>, t: Tuple, env: map<Symbol, DataValue>)
    requires Lays(where, t, env) && FilledAll(args, where).Success?
    ensures EvalAll(ops, FilledAll(args, where).value, t) == EvalAllIn(ops, args, env)
    decreases args, 0
  {
    if args != [] {
      FilledEval(ops, args[0], where, t, env);
      FilledEvalAll(ops, args[1..], where, t, env);
      var fs := FilledAll(args, where).value;
      assert fs[0] == Filled(args[0], where).value && fs[1..] == FilledAll(args[1..], where).value;
    }
  }

  lemma {:induction false} FilledEvalClauses(ops: Ops, cs: seq<Clause>, where: map<Symbol, nat>, t: Tuple, env: map<Symbol, DataValue>)
    requires Lays(where, t, env) && FilledClauses(cs, where).Success?
    ensures EvalClauses(ops, FilledClauses(cs, where).value, t) == EvalClausesIn(ops, cs, env)
    decreases cs, 0
  {
    if cs != [] {
      assert cs[0].test < cs[0] && cs[0].value < cs[0];
      FilledEval(ops, cs[0].test, where, t, env);
      FilledEval(ops, cs[0].value, where, t, env);
      FilledEvalClauses(ops, cs[1..], where, t, env);
      var fs := FilledClauses(cs, where).value;
      assert fs[0] == Clause(Filled(cs[0].test, where).value, Filled(cs[0].value, where).value);
      assert fs[1..] == FilledClauses(cs[1..], where).value;
    }
  }

  lemma {:induction false} FilledStaysGood(e: Expr, where: map<Symbol, nat>)
    requires CondsEnd(e) && Filled(e, where).Success?
    ensures Compilable(Filled(e, where).value) && CondsEnd(Filled(e, where).value)
    decreases e, 1
  {
    match e
    case Binding(_, _) =>
    case Const(_) =>
    case Apply(_, args) => FilledAllStayGood(args, where);
    case Cond(cs) => FilledClausesStayGood(cs, where);
  }

  lemma {:induction false} FilledAllStayGood(args: seq<Expr>, where: map<Symbol, nat>)
    requires AllCondsEnd(args) && FilledAll(args, where).Success?
    ensures AllCompilable(FilledAll(args, where).value) && AllCondsEnd(FilledAll(args, where).value)
    decreases args, 0
  {
    if args != [] {
      FilledStaysGood(args[0], where);
      FilledAllStayGood(args[1..], where);
      var fs := FilledAll(args, where).value;
      assert fs[0] == Filled(args[0], where).value && fs[1..] == FilledAll(args[1..], where).value;
    }
  }

  lemma {:induction false} FilledClausesStayGood(cs: seq<Clause>, where: map<Symbol, nat>)
    requires ClausesCondsEnd(cs) && FilledClauses(cs, where).Success?
    ensures ClausesCompilable(FilledClauses(cs, where).value) && ClausesCondsEnd(FilledClauses(cs, where).value)
    ensures EndsTrue(cs) ==> EndsTrue(FilledClauses(cs, where).value)
    ensures |FilledClauses(cs, where).value| == |cs|
    decreases cs, 0
  {
    if cs != [] {
      assert cs[0].test < cs[0] && cs[0].value < cs[0];
      FilledStaysGood(cs[0].test, where);
      FilledStaysGood(cs[0].value, where);
      FilledClausesStayGood(cs[1..], where);
      var fs := FilledClauses(cs, where).value;
      assert fs[0] == Clause(Filled(cs[0].test, where).value, Filled(cs[0].value, where).value);
      assert fs[1..] == FilledClauses(cs[1..], where).value;
      assert |cs| > 1 ==> cs[1..][|cs| - 2] == cs[|cs| - 1] && fs[1..][|cs| - 2] == fs[|cs| - 1];
    }
  }

  /** From the expression of a rule to the machine: the code run on a row gives what the rule means under its variables. */
  lemma CompiledMeans(ops: Ops, e: Expr, where: map<Symbol, nat>, t: Tuple, env: map<Symbol, DataValue>)
    requires CondsEnd(e) && Lays(where, t, env) && Filled(e, where).Success?
    ensures Run(ops, Code(Filled(e, where).value, 0), t, 0, []) == match EvalIn(ops, e, env) case Success(v) => Value(v) case Failure => Error
  {
    FilledStaysGood(e, where);
    FilledEval(ops, e, where, t, env);
    CompiledRun(ops, Filled(e, where).value, t);
  }
}
