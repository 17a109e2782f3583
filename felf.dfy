/** The earlier REPL-style prototype (forth-elf/src/felf.ts): one mutable
    interpreter state, de Bruijn-indexed variables, and constants that are
    "called" by replaying the program recorded when they were defined. The
    module-level `state` object becomes an instance of the class `Felf`; the
    exceptions it throws become `Fail`/`Err` results. */
module Felf {
  import opened Outcomes
  import opened Lexing

  /** Terms and types. Constants are signature indices; variables are de
      Bruijn indices (0 is the most recent binding). */
  datatype Expr =
    | Type
    | Kind
    | Pi(a: Expr, b: Expr)
    | AppC(cid: nat, spine: seq<Expr>)
    | AppV(head: nat)

  /** The recorded instructions a signature entry replays. */
  datatype Instr = Deb(ix: nat) | Call(cid: nat) | Arrow | IType

  datatype SigFrame = SigFrame(name: string, klass: Expr, program: seq<Instr>)

  datatype StackFrame = StackFrame(x: Expr, k: Expr)

  datatype DefContextFrame = DefContextFrame(name: string, k: Expr)

  /** The binder arrow of the surface syntax. */
  const ArrowWord := "\U{2192}"

  predicate IsClassifier(e: Expr) {
    e.Type? || e.Kind?
  }

  // ---------------------------------------------------------------------
  // Pure helpers

  /** Whether the constant `c` occurs in `e`. */
  predicate Occurs(e: Expr, c: int) {
    match e
    case Type => false
    case Kind => false
    case Pi(a, b) => Occurs(a, c) || Occurs(b, c)
    case AppC(cid, spine) => cid == c || exists k :: 0 <= k < |spine| && Occurs(spine[k], c)
    case AppV(_) => false
  }

  /** `replaceWithVar`: every application of the constant `oldLevel` becomes
      the variable `n`, where `n` grows by one under each Pi codomain. The
      spine of a replaced application is dropped. */
  function ReplaceWithVar(e: Expr, oldLevel: int, n: nat): Expr {
    match e
    case Pi(a, b) => Pi(ReplaceWithVar(a, oldLevel, n), ReplaceWithVar(b, oldLevel, n + 1))
    case AppC(cid, spine) =>
      if cid == oldLevel then AppV(n)
      else AppC(cid, seq(|spine|, k requires 0 <= k < |spine| => ReplaceWithVar(spine[k], oldLevel, n)))
    case AppV(head) => AppV(head)
    case Type => e
    case Kind => e
  }

  /** After the replacement the constant no longer occurs. */
  lemma {:induction false} ReplaceEliminates(e: Expr, oldLevel: int, n: nat)
    ensures !Occurs(ReplaceWithVar(e, oldLevel, n), oldLevel)
  {
    match e
    case Pi(a, b) =>
      ReplaceEliminates(a, oldLevel, n);
      ReplaceEliminates(b, oldLevel, n + 1);
    case AppC(cid, spine) =>
      if cid != oldLevel {
        forall k | 0 <= k < |spine| ensures !Occurs(ReplaceWithVar(spine[k], oldLevel, n), oldLevel) {
          ReplaceEliminates(spine[k], oldLevel, n);
        }
      }
    case _ =>
  }

  /** Where the constant does not occur, the replacement changes nothing
      (in particular `type`, `kind` and variables are left as they are). */
  lemma {:induction false} ReplaceAbsent(e: Expr, oldLevel: int, n: nat)
    requires !Occurs(e, oldLevel)
    ensures ReplaceWithVar(e, oldLevel, n) == e
  {
    match e
    case Pi(a, b) =>
      ReplaceAbsent(a, oldLevel, n);
      ReplaceAbsent(b, oldLevel, n + 1);
    case AppC(cid, spine) =>
      forall k | 0 <= k < |spine| ensures ReplaceWithVar(spine[k], oldLevel, n) == spine[k] {
        ReplaceAbsent(spine[k], oldLevel, n);
      }
    case _ =>
  }

  /** `absDctx`: abstract over the definition context, one Pi per entry,
      `dctx[0]` outermost. */
  function AbsDctx(dctx: seq<DefContextFrame>, e: Expr): Expr
    decreases |dctx|
  {
    if |dctx| == 0 then e
    else Pi(dctx[0].k, AbsDctx(dctx[1..], e))
  }

  function PiDepth(e: Expr): nat {
    if e.Pi? then 1 + PiDepth(e.b) else 0
  }

  function Domain(e: Expr, k: nat): Expr
    requires k < PiDepth(e)
  {
    if k == 0 then e.a else Domain(e.b, k - 1)
  }

  /** `absDctx` adds exactly one binder per entry, the `k`-th binder from the
      outside being entry `k`, and abstracting over two contexts in turn is
      abstracting over their concatenation. */
  lemma {:induction false} AbsDctxShape(dctx: seq<DefContextFrame>, e: Expr)
    ensures AbsDctx([], e) == e
    ensures PiDepth(AbsDctx(dctx, e)) == |dctx| + PiDepth(e)
    ensures forall k :: 0 <= k < |dctx| ==> Domain(AbsDctx(dctx, e), k) == dctx[k].k
    decreases |dctx|
  {
    if dctx != [] {
      AbsDctxShape(dctx[1..], e);
      forall k | 0 <= k < |dctx| ensures Domain(AbsDctx(dctx, e), k) == dctx[k].k {
        if k > 0 {
          assert dctx[1..][k - 1] == dctx[k];
        }
      }
    }
  }

  lemma {:induction false} AbsDctxAppend(d1: seq<DefContextFrame>, d2: seq<DefContextFrame>, e: Expr)
    ensures AbsDctx(d1 + d2, e) == AbsDctx(d1, AbsDctx(d2, e))
    decreases |d1|
  {
    if d1 != [] {
      assert (d1 + d2)[1..] == d1[1..] + d2;
      AbsDctxAppend(d1[1..], d2, e);
    } else {
      assert d1 + d2 == d2;
    }
  }

  /** Under `|dctx|` binders that do not mention the constant, replacing the
      constant at level `n` yields the variable `n + |dctx|`. */
  lemma {:induction false} ReplaceUnderBinders(dctx: seq<DefContextFrame>, c: nat, spine: seq<Expr>, n: nat)
    requires forall k :: 0 <= k < |dctx| ==> !Occurs(dctx[k].k, c)
    ensures ReplaceWithVar(AbsDctx(dctx, AppC(c, spine)), c, n) == AbsDctx(dctx, AppV(n + |dctx|))
    decreases |dctx|
  {
    if dctx != [] {
      ReplaceAbsent(dctx[0].k, c, n);
      ReplaceUnderBinders(dctx[1..], c, spine, n + 1);
    }
  }

  // ---------------------------------------------------------------------
  // Flatten-based equality

  /** `flatten`: spines reversed, then the constant's name. It throws on a
      `pi`, on a variable, and (reading the name of a missing entry) on a
      constant outside the signature. */
  function Flatten(sig: seq<SigFrame>, e: Expr): Result<seq<string>> {
    match e
    case Type => Ok(["type"])
    case Kind => Ok(["kind"])
    case Pi(_, _) => Err("Didn't expect to flatten anything but base types!")
    case AppC(cid, spine) =>
      if cid >= |sig| then Err("TypeError: no signature entry")
      else
        (match FlattenSpine(sig, spine)
         case Err(m) => Err(m)
         case Ok(s) => Ok(s + [sig[cid].name]))
    case AppV(_) => Err("didn't expect to flatten variable applications")
  }

  function FlattenSpine(sig: seq<SigFrame>, spine: seq<Expr>): Result<seq<string>> {
    if spine == [] then Ok([])
    else
      match FlattenSpine(sig, spine[1..])
      case Err(m) => Err(m)
      case Ok(rest) =>
        (match Flatten(sig, spine[0])
         case Err(m) => Err(m)
         case Ok(first) => Ok(rest + first))
  }

  /** The expressions `flatten` accepts: built from `type`, `kind` and
      applications of constants of the signature. */
  predicate Flattenable(sig: seq<SigFrame>, e: Expr) {
    match e
    case Type => true
    case Kind => true
    case Pi(_, _) => false
    case AppC(cid, spine) => cid < |sig| && forall k :: 0 <= k < |spine| ==> Flattenable(sig, spine[k])
    case AppV(_) => false
  }

  lemma {:induction false} FlattenDefined(sig: seq<SigFrame>, e: Expr)
    ensures Flatten(sig, e).Ok? <==> Flattenable(sig, e)
  {
    match e
    case AppC(cid, spine) => FlattenSpineDefined(sig, spine);
    case _ =>
  }

  lemma {:induction false} FlattenSpineDefined(sig: seq<SigFrame>, spine: seq<Expr>)
    ensures FlattenSpine(sig, spine).Ok? <==> forall k :: 0 <= k < |spine| ==> Flattenable(sig, spine[k])
  {
    if spine != [] {
      FlattenSpineDefined(sig, spine[1..]);
      FlattenDefined(sig, spine[0]);
      assert forall k :: 1 <= k < |spine| ==> spine[k] == spine[1..][k - 1];
    }
  }

  /** `assertEqual`: both sides flattened (left first), then compared as
      space-joined strings. */
  function AssertEqual(sig: seq<SigFrame>, e1: Expr, e2: Expr): Outcome {
    match Flatten(sig, e1)
    case Err(m) => Fail(m)
    case Ok(f1) =>
      match Flatten(sig, e2)
      case Err(m) => Fail(m)
      case Ok(f2) =>
        if Unwords(f1) != Unwords(f2) then Fail("type error " + Unwords(f1) + " != " + Unwords(f2))
        else Pass
  }

  /** `assertEqual` rejects a `pi` or a variable on either side, and accepts
      an expression against itself exactly when `flatten` accepts it. */
  lemma AssertEqualDomain(sig: seq<SigFrame>, e1: Expr, e2: Expr)
    ensures e1.Pi? || e1.AppV? || e2.Pi? || e2.AppV? ==> AssertEqual(sig, e1, e2).Fail?
    ensures AssertEqual(sig, e1, e1).Pass? <==> Flattenable(sig, e1)
    ensures AssertEqual(sig, e1, e2).Pass? ==> Flattenable(sig, e1) && Flattenable(sig, e2)
  {
    FlattenDefined(sig, e1);
    FlattenDefined(sig, e2);
  }

  // ---------------------------------------------------------------------
  // Well-formed recorded programs

  /** Number of `→` instructions. */
  function Arrows(p: seq<Instr>): nat {
    if p == [] then 0 else Arrows(p[..|p| - 1]) + (if p[|p| - 1].Arrow? then 1 else 0)
  }

  /** A program recorded while the signature had `n` entries: it calls only
      earlier constants, and each `deb` refers to an argument already grabbed. */
  predicate ProgramOk(p: seq<Instr>, n: nat) {
    forall j :: 0 <= j < |p| ==>
      (p[j].Call? ==> p[j].cid < n) && (p[j].Deb? ==> p[j].ix < Arrows(p[..j]))
  }

  predicate SigOk(sig: seq<SigFrame>) {
    forall c :: 0 <= c < |sig| ==> ProgramOk(sig[c].program, c)
  }

  lemma ProgramOkSnoc(p: seq<Instr>, n: nat, i: Instr)
    requires ProgramOk(p, n)
    requires i.Call? ==> i.cid < n
    requires i.Deb? ==> i.ix < Arrows(p)
    ensures ProgramOk(p + [i], n)
    ensures Arrows(p + [i]) == Arrows(p) + (if i.Arrow? then 1 else 0)
  {
    var q := p + [i];
    assert q[..|q| - 1] == p;
    forall j | 0 <= j < |p| ensures q[..j] == p[..j] {
    }
  }

  // ---------------------------------------------------------------------
  // Replaying a constant

  /** Replay of instructions `k..` of constant `cid`'s program on `stack`,
      with `ectx` the arguments grabbed so far (most recent first). The result
      is the final argument list and stack. */
  function ExecFrom(sig: seq<SigFrame>, cid: nat, k: nat, ectx: seq<StackFrame>, stack: seq<StackFrame>)
    : Result<(seq<StackFrame>, seq<StackFrame>)>
    requires SigOk(sig) && cid < |sig|
    requires k <= |sig[cid].program| && |ectx| == Arrows(sig[cid].program[..k])
    decreases cid, 0, |sig[cid].program| - k
  {
    var prog := sig[cid].program;
    if k == |prog| then Ok((ectx, stack))
    else
      assert prog[..k + 1][..k] == prog[..k];
      match prog[k]
      case IType => ExecFrom(sig, cid, k + 1, ectx, stack + [StackFrame(Type, Kind)])
      case Arrow =>
        if |stack| == 0 then Err("underflow during \U{2192}1")
        else
          var v1 := stack[|stack| - 1];
          var st1 := stack[..|stack| - 1];
          if |st1| == 0 then Err("underflow during \U{2192}2")
          else
            var v2 := st1[|st1| - 1];
            var st2 := st1[..|st1| - 1];
            (match AssertEqual(sig, v1.x, v2.k)
             case Fail(m) => Err(m)
             case Pass => ExecFrom(sig, cid, k + 1, [v2] + ectx, st2))
      case Deb(ix) => ExecFrom(sig, cid, k + 1, ectx, stack + [ectx[ix]])
      case Call(c) =>
        match RunSpec(sig, c, stack)
        case Err(m) => Err(m)
        case Ok(st) => ExecFrom(sig, cid, k + 1, ectx, st)
  }

  /** `runCid` on a stack: replay the program, then pop the classifier `a`
      and push `cid` applied to the grabbed arguments, oldest first, with
      class `a`'s term. */
  function RunSpec(sig: seq<SigFrame>, cid: nat, stack: seq<StackFrame>): Result<seq<StackFrame>>
    requires SigOk(sig) && cid < |sig|
    decreases cid, 1, 0
  {
    assert sig[cid].program[..0] == [];
    match ExecFrom(sig, cid, 0, [], stack)
    case Err(m) => Err(m)
    case Ok((ectx, st)) =>
      if |st| == 0 then Err("underflow during close-brace")
      else
        var a := st[|st| - 1];
        if !IsClassifier(a.k) then Err("tried to close-brace non-classifier")
        else Ok(st[..|st| - 1] + [StackFrame(AppC(cid, Spine(ectx)), a.x)])
  }

  /** `ectx.map(ec => ec.x).reverse()` */
  function Spine(ectx: seq<StackFrame>): (r: seq<Expr>)
    ensures |r| == |ectx|
    ensures forall k :: 0 <= k < |ectx| ==> r[k] == ectx[|ectx| - 1 - k].x
  {
    if ectx == [] then [] else Spine(ectx[1..]) + [ectx[0].x]
  }

  /** A successful replay grabs one argument per `→` of the program. */
  lemma {:induction false} ExecFromArity(sig: seq<SigFrame>, cid: nat, k: nat, ectx: seq<StackFrame>, stack: seq<StackFrame>)
    requires SigOk(sig) && cid < |sig|
    requires k <= |sig[cid].program| && |ectx| == Arrows(sig[cid].program[..k])
    requires ExecFrom(sig, cid, k, ectx, stack).Ok?
    ensures |ExecFrom(sig, cid, k, ectx, stack).value.0| == Arrows(sig[cid].program)
    decreases |sig[cid].program| - k
  {
    var prog := sig[cid].program;
    if k == |prog| {
      assert prog[..k] == prog;
    } else {
      assert prog[..k + 1][..k] == prog[..k];
      match prog[k]
      case IType => ExecFromArity(sig, cid, k + 1, ectx, stack + [StackFrame(Type, Kind)]);
      case Arrow =>
        var st1 := stack[..|stack| - 1];
        ExecFromArity(sig, cid, k + 1, [st1[|st1| - 1]] + ectx, st1[..|st1| - 1]);
      case Deb(ix) => ExecFromArity(sig, cid, k + 1, ectx, stack + [ectx[ix]]);
      case Call(c) => ExecFromArity(sig, cid, k + 1, ectx, RunSpec(sig, c, stack).value);
    }
  }

  /** A `→` in a replayed program pops two entries: `v1`, then `v2` below it.
      It fails on underflow or when `v1`'s term differs from `v2`'s class,
      and otherwise grabs `v2` as the newest argument and goes on with both
      entries gone. */
  lemma ArrowInstr(sig: seq<SigFrame>, cid: nat, k: nat, ectx: seq<StackFrame>, stack: seq<StackFrame>)
    requires SigOk(sig) && cid < |sig|
    requires k < |sig[cid].program| && |ectx| == Arrows(sig[cid].program[..k])
    requires sig[cid].program[k] == Arrow
    ensures |stack| == 0 ==> ExecFrom(sig, cid, k, ectx, stack) == Err("underflow during \U{2192}1")
    ensures |stack| == 1 ==> ExecFrom(sig, cid, k, ectx, stack) == Err("underflow during \U{2192}2")
    ensures |stack| >= 2 ==>
      var v1 := stack[|stack| - 1];
      var v2 := stack[|stack| - 2];
      && (AssertEqual(sig, v1.x, v2.k).Fail? ==>
            ExecFrom(sig, cid, k, ectx, stack) == Err(AssertEqual(sig, v1.x, v2.k).msg))
      && (AssertEqual(sig, v1.x, v2.k).Pass? ==>
            && Arrows(sig[cid].program[..k + 1]) == |ectx| + 1
            && ExecFrom(sig, cid, k, ectx, stack) == ExecFrom(sig, cid, k + 1, [v2] + ectx, stack[..|stack| - 2]))
  {
    var prog := sig[cid].program;
    assert prog[..k + 1][..k] == prog[..k];
    if |stack| >= 2 {
      var st1 := stack[..|stack| - 1];
      assert st1[|st1| - 1] == stack[|stack| - 2];
      assert st1[..|st1| - 1] == stack[..|stack| - 2];
    }
  }

  /** A successful call replaces the classifier `a` left on top by the replay
      with `cid` applied to one argument per `→`, oldest first, classified by
      `a`'s term; the entries below stay as the replay left them. */
  lemma RunSpecResult(sig: seq<SigFrame>, cid: nat, stack: seq<StackFrame>)
    requires SigOk(sig) && cid < |sig|
    requires RunSpec(sig, cid, stack).Ok?
    ensures Arrows(sig[cid].program[..0]) == 0
    ensures var r := RunSpec(sig, cid, stack).value;
      var e := ExecFrom(sig, cid, 0, [], stack);
      && e.Ok? && r != [] && |r| == |e.value.1|
      && IsClassifier(e.value.1[|r| - 1].k)
      && r[..|r| - 1] == e.value.1[..|r| - 1]
      && r[|r| - 1].k == e.value.1[|r| - 1].x
      && r[|r| - 1].x.AppC? && r[|r| - 1].x.cid == cid
      && |r[|r| - 1].x.spine| == Arrows(sig[cid].program)
      && r[|r| - 1].x.spine == Spine(e.value.0)
  {
    assert sig[cid].program[..0] == [];
    ExecFromArity(sig, cid, 0, [], stack);
  }

  // ---------------------------------------------------------------------
  // The interpreter loop, as a function of the state

  /** The interpreter state as a value. */
  datatype Machine = Machine(
    sig: seq<SigFrame>,
    stack: seq<StackFrame>,
    dctx: seq<DefContextFrame>,
    program: seq<Instr>,
    name: string)

  /** The invariant of the interpreter state: every recorded program is well
      formed, and the open definition has grabbed one argument per `→`. */
  predicate MachineOk(m: Machine) {
    SigOk(m.sig) && ProgramOk(m.program, |m.sig|) && Arrows(m.program) == |m.dctx|
  }

  /** The word after position `i`, or the empty string where the source reads
      past the end of the input (`undefined`, which it can never look up). */
  function NextWord(input: seq<string>, i: nat): string {
    if i + 1 < |input| then input[i + 1] else ""
  }

  /** `dctx.findIndex(frame => frame.name == tok)`: the OLDEST binding of the name. */
  function FindDctx(dctx: seq<DefContextFrame>, tok: string): (r: Option<nat>)
    ensures r.Some? ==> r.value < |dctx| && dctx[r.value].name == tok
                        && forall j :: 0 <= j < r.value ==> dctx[j].name != tok
    ensures r.None? ==> forall j :: 0 <= j < |dctx| ==> dctx[j].name != tok
  {
    if dctx == [] then None
    else if dctx[0].name == tok then Some(0)
    else match FindDctx(dctx[1..], tok)
         case None => None
         case Some(j) => Some(j + 1)
  }

  /** `sig.findIndex(frame => frame.name == tok)`: the first constant of the name.
      The same search as `FindDctx` over signature entries; the two are kept
      apart because one search generic over a name-extracting function makes
      the proofs that unfold it on concrete signatures far more expensive. */
  function FindSig(sig: seq<SigFrame>, tok: string): (r: Option<nat>)
    ensures r.Some? ==> r.value < |sig| && sig[r.value].name == tok
                        && forall j :: 0 <= j < r.value ==> sig[j].name != tok
    ensures r.None? ==> forall j :: 0 <= j < |sig| ==> sig[j].name != tok
  {
    if sig == [] then None
    else if sig[0].name == tok then Some(0)
    else match FindSig(sig[1..], tok)
         case None => None
         case Some(j) => Some(j + 1)
  }

  /** One pass of `interp`'s loop on the token at `i`: the new state and the
      position of the next token. */
  function Step(m: Machine, input: seq<string>, i: nat): (r: Result<(Machine, nat)>)
    requires MachineOk(m) && i < |input|
    ensures r.Ok? ==> MachineOk(r.value.0) && r.value.1 > i
  {
    var tok := input[i];
    if tok == "{" then Ok((m.(dctx := [], program := []), i + 1))
    else if tok == "}" then
      if |m.stack| == 0 then Err("stack underflow")
      else
        var top := m.stack[|m.stack| - 1];
        if !IsClassifier(top.k) then Err("tried to bind non-classifier")
        else
          var entry := SigFrame(NextWord(input, i), AbsDctx(m.dctx, top.x), m.program);
          Ok((Machine(m.sig + [entry], m.stack[..|m.stack| - 1], [], [], "_"), i + 2))
    else if tok == "type" then
      ProgramOkSnoc(m.program, |m.sig|, IType);
      Ok((m.(program := m.program + [IType], stack := m.stack + [StackFrame(Type, Kind)]), i + 1))
    else if tok == ":" then Ok((m.(name := NextWord(input, i)), i + 2))
    else if tok == ArrowWord then
      if |m.stack| == 0 then Err("stack underflow")
      else
        var top := m.stack[|m.stack| - 1];
        if !IsClassifier(top.k) then Err("tried to bind non-classifier")
        else
          ProgramOkSnoc(m.program, |m.sig|, Arrow);
          Ok((m.(stack := m.stack[..|m.stack| - 1], program := m.program + [Arrow],
                 dctx := m.dctx + [DefContextFrame(m.name, top.x)], name := "_"), i + 1))
    else
      match LookupSpec(m, tok)
      case Err(msg) => Err(msg)
      case Ok(m') => Ok((m', i + 1))
  }

  /** The identifier case: the definition context is searched before the
      signature. */
  function LookupSpec(m: Machine, tok: string): (r: Result<Machine>)
    requires MachineOk(m)
    ensures r.Ok? ==> MachineOk(r.value)
  {
    match FindDctx(m.dctx, tok)
    case Some(vid) =>
      var ix := |m.dctx| - vid - 1;
      ProgramOkSnoc(m.program, |m.sig|, Deb(ix));
      Ok(m.(program := m.program + [Deb(ix)], stack := m.stack + [StackFrame(AppV(ix), m.dctx[vid].k)]))
    case None =>
      match FindSig(m.sig, tok)
      case Some(cid) =>
        ProgramOkSnoc(m.program, |m.sig|, Call(cid));
        (match RunSpec(m.sig, cid, m.stack)
         case Err(msg) => Err(msg)
         case Ok(st) => Ok(m.(program := m.program + [Call(cid)], stack := st)))
      case None => Err(tok + " not found")
  }

  /** `interp` from position `i` on. */
  function InterpFrom(m: Machine, input: seq<string>, i: nat): Result<Machine>
    requires MachineOk(m)
    decreases |input| - i
  {
    if i >= |input| then Ok(m)
    else
      match Step(m, input, i)
      case Err(msg) => Err(msg)
      case Ok((m', j)) => InterpFrom(m', input, j)
  }

  const Initial := Machine([], [], [], [], "_")

  /** Every state the interpreter reaches keeps the invariant. */
  lemma {:induction false} InterpKeepsInvariant(m: Machine, input: seq<string>, i: nat)
    requires MachineOk(m)
    ensures InterpFrom(m, input, i).Ok? ==> MachineOk(InterpFrom(m, input, i).value)
    decreases |input| - i
  {
    if i < |input| {
      match Step(m, input, i)
      case Err(_) =>
      case Ok((m', j)) => InterpKeepsInvariant(m', input, j);
    }
  }

  // ---------------------------------------------------------------------
  // What each token does

  /** `type` records a `type` instruction and pushes `(type : kind)`. */
  lemma TypeToken(m: Machine, input: seq<string>, i: nat)
    requires MachineOk(m) && i < |input| && input[i] == "type"
    ensures Step(m, input, i)
         == Ok((m.(program := m.program + [IType], stack := m.stack + [StackFrame(Type, Kind)]), i + 1))
  {
  }

  /** `→` binds the classifier on top of the stack as the next parameter,
      under the current name, records `→` and resets the name to `_`. It
      fails on an empty stack or a non-classifier. */
  lemma ArrowToken(m: Machine, input: seq<string>, i: nat)
    requires MachineOk(m) && i < |input| && input[i] == ArrowWord
    ensures m.stack == [] ==> Step(m, input, i) == Err("stack underflow")
    ensures m.stack != [] && !IsClassifier(m.stack[|m.stack| - 1].k) ==>
              Step(m, input, i) == Err("tried to bind non-classifier")
    ensures m.stack != [] && IsClassifier(m.stack[|m.stack| - 1].k) ==>
              var top := m.stack[|m.stack| - 1];
              Step(m, input, i) == Ok((Machine(m.sig, m.stack[..|m.stack| - 1], m.dctx + [DefContextFrame(m.name, top.x)],
                                               m.program + [Arrow], "_"), i + 1))
  {
  }

  /** `}` pops a classifier and appends a signature entry named by the next
      word, whose class is the classifier abstracted over the definition
      context and whose program is the recorded one; context and program are
      then emptied. */
  lemma CloseToken(m: Machine, input: seq<string>, i: nat)
    requires MachineOk(m) && i < |input| && input[i] == "}"
    ensures m.stack == [] ==> Step(m, input, i) == Err("stack underflow")
    ensures m.stack != [] && !IsClassifier(m.stack[|m.stack| - 1].k) ==>
              Step(m, input, i) == Err("tried to bind non-classifier")
    ensures m.stack != [] && IsClassifier(m.stack[|m.stack| - 1].k) ==>
              var top := m.stack[|m.stack| - 1];
              && Step(m, input, i).Ok?
              && var m' := Step(m, input, i).value.0;
              && m'.sig == m.sig + [SigFrame(NextWord(input, i), AbsDctx(m.dctx, top.x), m.program)]
              && m'.stack == m.stack[..|m.stack| - 1]
              && m'.dctx == [] && m'.program == []
              && Step(m, input, i).value.1 == i + 2
  {
  }

  /** Any other word is an identifier, looked up by `LookupSpec`. */
  lemma IdentToken(m: Machine, input: seq<string>, i: nat)
    requires MachineOk(m) && i < |input|
    requires input[i] !in {"{", "}", "type", ":", ArrowWord}
    ensures Step(m, input, i) == (match LookupSpec(m, input[i])
                                  case Err(msg) => Err(msg)
                                  case Ok(m') => Ok((m', i + 1)))
  {
  }

  /** A name bound in the definition context records `deb` with index 0 for
      the most recent binding and pushes the variable with the bound class;
      of several bindings of the name, the oldest is used. */
  lemma LookupInContext(m: Machine, tok: string, vid: nat)
    requires MachineOk(m) && vid < |m.dctx| && m.dctx[vid].name == tok
    requires forall j :: 0 <= j < vid ==> m.dctx[j].name != tok
    ensures var ix := |m.dctx| - vid - 1;
      LookupSpec(m, tok) == Ok(m.(program := m.program + [Deb(ix)],
                                  stack := m.stack + [StackFrame(AppV(ix), m.dctx[vid].k)]))
  {
    assert FindDctx(m.dctx, tok) == Some(vid);
  }

  /** A name not in the context but in the signature records a call and
      replays the first constant of that name. */
  lemma LookupInSignature(m: Machine, tok: string, cid: nat)
    requires MachineOk(m)
    requires forall j :: 0 <= j < |m.dctx| ==> m.dctx[j].name != tok
    requires cid < |m.sig| && m.sig[cid].name == tok
    requires forall j :: 0 <= j < cid ==> m.sig[j].name != tok
    ensures LookupSpec(m, tok) == (match RunSpec(m.sig, cid, m.stack)
                                   case Err(msg) => Err(msg)
                                   case Ok(st) => Ok(m.(program := m.program + [Call(cid)], stack := st)))
  {
    assert FindDctx(m.dctx, tok) == None;
    assert FindSig(m.sig, tok) == Some(cid);
  }

  /** A name found nowhere fails. */
  lemma LookupMissing(m: Machine, tok: string)
    requires MachineOk(m)
    requires forall j :: 0 <= j < |m.dctx| ==> m.dctx[j].name != tok
    requires forall j :: 0 <= j < |m.sig| ==> m.sig[j].name != tok
    ensures LookupSpec(m, tok) == Err(tok + " not found")
  {
    assert FindDctx(m.dctx, tok) == None;
    assert FindSig(m.sig, tok) == None;
  }

  // ---------------------------------------------------------------------
  // The interpreter object

  class Interpreter {
    var sig: seq<SigFrame>
    var stack: seq<StackFrame>
    var dctx: seq<DefContextFrame>
    var program: seq<Instr>
    var name: string

    function Snapshot(): Machine
      reads this
    {
      Machine(sig, stack, dctx, program, name)
    }

    ghost predicate Valid()
      reads this
    {
      MachineOk(Snapshot())
    }

    /** The initial `state`: everything empty, the name `_`. */
    constructor ()
      ensures Valid() && Snapshot() == Initial
    {
      sig, stack, dctx, program, name := [], [], [], [], "_";
    }

    /** `runCid`: replay constant `cid`'s program on the stack, recursing into
        the constants it calls. Only the stack changes. On failure the source
        throws with the stack part-way; nothing is said about the stack then. */
    method RunCid(cid: nat) returns (res: Outcome)
      requires Valid() && cid < |sig|
      modifies this
      ensures Valid()
      ensures sig == old(sig) && dctx == old(dctx) && program == old(program) && name == old(name)
      ensures res.Pass? <==> RunSpec(sig, cid, old(stack)).Ok?
      ensures res.Pass? ==> stack == RunSpec(sig, cid, old(stack)).value
      ensures res.Fail? ==> RunSpec(sig, cid, old(stack)) == Err(res.msg)
      decreases cid, 1
    {
      var prog := sig[cid].program;
      var ectx: seq<StackFrame> := [];
      var k := 0;
      assert prog[..0] == [];
      while k < |prog|
        invariant sig == old(sig) && dctx == old(dctx) && program == old(program) && name == old(name)
        invariant k <= |prog| && |ectx| == Arrows(prog[..k])
        invariant ExecFrom(sig, cid, 0, [], old(stack)) == ExecFrom(sig, cid, k, ectx, stack)
      {
        res, ectx := ExecInstr(cid, k, ectx);
        if res.Fail? {
          return;
        }
        k := k + 1;
      }
      assert prog[..k] == prog;
      res := Finish(cid, ectx);
    }

    /** One pass of `runCid`'s loop: instruction `k` of the program of `cid`,
        with `ectx` the arguments grabbed so far. */
    method ExecInstr(cid: nat, k: nat, ectx: seq<StackFrame>) returns (res: Outcome, ectx': seq<StackFrame>)
      requires Valid() && cid < |sig|
      requires k < |sig[cid].program| && |ectx| == Arrows(sig[cid].program[..k])
      modifies this
      ensures Valid()
      ensures sig == old(sig) && dctx == old(dctx) && program == old(program) && name == old(name)
      ensures res.Pass? ==> |ectx'| == Arrows(sig[cid].program[..k + 1])
      ensures res.Pass? ==> ExecFrom(sig, cid, k, ectx, old(stack)) == ExecFrom(sig, cid, k + 1, ectx', stack)
      ensures res.Fail? ==> ExecFrom(sig, cid, k, ectx, old(stack)) == Err(res.msg)
      decreases cid, 0
    {
      var prog := sig[cid].program;
      assert prog[..k + 1][..k] == prog[..k];
      res, ectx' := Pass, ectx;
      match prog[k] {
        case IType =>
          stack := stack + [StackFrame(Type, Kind)];
        case Arrow =>
          if |stack| == 0 {
            return Fail("underflow during \U{2192}1"), ectx;
          }
          var v1 := stack[|stack| - 1];
          stack := stack[..|stack| - 1];
          if |stack| == 0 {
            return Fail("underflow during \U{2192}2"), ectx;
          }
          var v2 := stack[|stack| - 1];
          stack := stack[..|stack| - 1];
          res := AssertEqual(sig, v1.x, v2.k);
          ectx' := [v2] + ectx;
        case Deb(ix) =>
          stack := stack + [ectx[ix]];
        case Call(c) =>
          res := RunCid(c);
      }
    }

    /** The end of `runCid`: pop the classifier and push the application. */
    method Finish(cid: nat, ectx: seq<StackFrame>) returns (res: Outcome)
      requires Valid()
      modifies this
      ensures Valid()
      ensures sig == old(sig) && dctx == old(dctx) && program == old(program) && name == old(name)
      ensures res.Pass? <==> old(stack) != [] && IsClassifier(old(stack)[|old(stack)| - 1].k)
      ensures res.Fail? ==> res.msg == if old(stack) == [] then "underflow during close-brace"
                                       else "tried to close-brace non-classifier"
      ensures res.Pass? ==> stack == old(stack)[..|old(stack)| - 1]
                                     + [StackFrame(AppC(cid, Spine(ectx)), old(stack)[|old(stack)| - 1].x)]
    {
      if |stack| == 0 {
        return Fail("underflow during close-brace");
      }
      var a := stack[|stack| - 1];
      stack := stack[..|stack| - 1];
      if !IsClassifier(a.k) {
        return Fail("tried to close-brace non-classifier");
      }
      var spine := Spine(ectx);
      stack := stack + [StackFrame(AppC(cid, spine), a.x)];
      res := Pass;
    }

    /** `interp`: process the words one by one (`:` and `}` also consume the
        word after them). The state afterwards is the one `InterpFrom`
        computes; on failure the source throws and nothing is said about
        the state. */
    method Interp(input: seq<string>) returns (res: Outcome)
      requires Valid()
      modifies this
      ensures Valid()
      ensures res.Pass? <==> InterpFrom(old(Snapshot()), input, 0).Ok?
      ensures res.Pass? ==> Snapshot() == InterpFrom(old(Snapshot()), input, 0).value
    {
      var i := 0;
      while i < |input|
        invariant Valid()
        invariant InterpFrom(old(Snapshot()), input, 0) == InterpFrom(Snapshot(), input, i)
        decreases |input| - i
      {
        var j;
        res, j := StepAt(input, i);
        if res.Fail? {
          return;
        }
        i := j;
      }
      res := Pass;
    }

    /** One pass of `interp`'s loop on the word at `i`, returning where the
        next pass starts. */
    method StepAt(input: seq<string>, i: nat) returns (res: Outcome, j: nat)
      requires Valid() && i < |input|
      modifies this
      ensures Valid()
      ensures res.Pass? <==> Step(old(Snapshot()), input, i).Ok?
      ensures res.Pass? ==> (Snapshot(), j) == Step(old(Snapshot()), input, i).value
    {
      var tok := input[i];
      j := i + 1;
      res := Pass;
      if tok == "{" {
        dctx := [];
        program := [];
      } else if tok == "}" {
        var nm := if i + 1 < |input| then input[i + 1] else "";
        j := i + 2;
        res := CloseBrace(nm);
      } else if tok == "type" {
        ProgramOkSnoc(program, |sig|, IType);
        program := program + [IType];
        stack := stack + [StackFrame(Type, Kind)];
      } else if tok == ":" {
        name := if i + 1 < |input| then input[i + 1] else "";
        j := i + 2;
      } else if tok == ArrowWord {
        res := Bind();
      } else {
        res := Lookup(tok);
      }
    }

    /** The `}` case, with the word after it as the new entry's name. */
    method CloseBrace(nm: string) returns (res: Outcome)
      requires Valid()
      modifies this
      ensures Valid()
      ensures res.Pass? <==> old(stack) != [] && IsClassifier(old(stack)[|old(stack)| - 1].k)
      ensures res.Fail? ==> res.msg == if old(stack) == [] then "stack underflow" else "tried to bind non-classifier"
      ensures res.Pass? ==>
        Snapshot() == Machine(old(sig) + [SigFrame(nm, AbsDctx(old(dctx), old(stack)[|old(stack)| - 1].x), old(program))],
                              old(stack)[..|old(stack)| - 1], [], [], "_")
    {
      if |stack| == 0 {
        return Fail("stack underflow");
      }
      var top := stack[|stack| - 1];
      stack := stack[..|stack| - 1];
      if !IsClassifier(top.k) {
        return Fail("tried to bind non-classifier");
      }
      sig := sig + [SigFrame(nm, AbsDctx(dctx, top.x), program)];
      dctx := [];
      program := [];
      name := "_";
      res := Pass;
    }

    /** The `→` case. */
    method Bind() returns (res: Outcome)
      requires Valid()
      modifies this
      ensures Valid()
      ensures res.Pass? <==> old(stack) != [] && IsClassifier(old(stack)[|old(stack)| - 1].k)
      ensures res.Fail? ==> res.msg == if old(stack) == [] then "stack underflow" else "tried to bind non-classifier"
      ensures res.Pass? ==>
        Snapshot() == Machine(old(sig), old(stack)[..|old(stack)| - 1],
                              old(dctx) + [DefContextFrame(old(name), old(stack)[|old(stack)| - 1].x)],
                              old(program) + [Arrow], "_")
    {
      if |stack| == 0 {
        return Fail("stack underflow");
      }
      var top := stack[|stack| - 1];
      stack := stack[..|stack| - 1];
      if !IsClassifier(top.k) {
        return Fail("tried to bind non-classifier");
      }
      ProgramOkSnoc(program, |sig|, Arrow);
      program := program + [Arrow];
      dctx := dctx + [DefContextFrame(name, top.x)];
      name := "_";
      res := Pass;
    }

    /** The identifier case of `interp`. */
    method Lookup(tok: string) returns (res: Outcome)
      requires Valid()
      modifies this
      ensures Valid()
      ensures sig == old(sig) && dctx == old(dctx) && name == old(name)
      ensures res.Pass? <==> LookupSpec(old(Snapshot()), tok).Ok?
      ensures res.Pass? ==> Snapshot() == LookupSpec(old(Snapshot()), tok).value
    {
      var vid := FindDctx(dctx, tok);
      if vid.Some? {
        var ix := |dctx| - vid.value - 1;
        ProgramOkSnoc(program, |sig|, Deb(ix));
        program := program + [Deb(ix)];
        stack := stack + [StackFrame(AppV(ix), dctx[vid.value].k)];
        return Pass;
      }
      var cid := FindSig(sig, tok);
      if cid.Some? {
        ProgramOkSnoc(program, |sig|, Call(cid.value));
        program := program + [Call(cid.value)];
        res := RunCid(cid.value);
        return;
      }
      return Fail(tok + " not found");
    }
  }
}

module FelfScenarios {
  import opened Outcomes
  import opened Felf

  const Declarations := ["type", "}", "o", "o", "}", "z", "o", ArrowWord, "type", "}", "f", "z", "f"]

  /** Declaring `o : type`, `z : o` and `f : o → type`, then checking the
      application `f z`: the signature records each class abstracted over its
      parameters, and the application leaves `f z : type` on the stack. */
  lemma ApplicationChecks()
    ensures InterpFrom(Initial, Declarations, 0)
         == Ok(Machine(Sig3, [StackFrame(AppC(2, [AppC(1, [])]), Type)], [], [Call(1), Call(2)], "_"))
  {
    DeclareO();
    DeclareZ();
    DeclareF();
    ApplyF();
  }

  const O := AppC(0, [])
  const Sig1 := [SigFrame("o", Type, [IType])]
  const Sig2 := [SigFrame("o", Type, [IType]), SigFrame("z", O, [Call(0)])]
  const Sig3 := [SigFrame("o", Type, [IType]), SigFrame("z", O, [Call(0)]),
                 SigFrame("f", Pi(O, Type), [Call(0), Arrow, IType])]

  /** Running from one state is running from the state one step later. */
  lemma Advance(m: Machine, input: seq<string>, i: nat, m': Machine, j: nat)
    requires MachineOk(m) && i < |input| && Step(m, input, i) == Ok((m', j))
    ensures MachineOk(m') && InterpFrom(m, input, i) == InterpFrom(m', input, j)
  {
  }

  lemma DeclareO()
    ensures MachineOk(Machine(Sig1, [], [], [], "_"))
    ensures InterpFrom(Initial, Declarations, 0) == InterpFrom(Machine(Sig1, [], [], [], "_"), Declarations, 3)
  {
    var m0 := Initial.(program := [IType], stack := [StackFrame(Type, Kind)]);
    assert Declarations[0] == "type" && Declarations[1] == "}" && Declarations[2] == "o";
    TypeToken(Initial, Declarations, 0);
    assert Initial.program + [IType] == [IType];
    assert Initial.stack + [StackFrame(Type, Kind)] == [StackFrame(Type, Kind)];
    assert Sig1 == [] + [SigFrame("o", AbsDctx([], Type), [IType])];
    Advance(Initial, Declarations, 0, m0, 1);
    CloseToken(m0, Declarations, 1);
    Advance(m0, Declarations, 1, Machine(Sig1, [], [], [], "_"), 3);
  }

  lemma DeclareZ()
    requires MachineOk(Machine(Sig1, [], [], [], "_"))
    ensures MachineOk(Machine(Sig2, [], [], [], "_"))
    ensures InterpFrom(Machine(Sig1, [], [], [], "_"), Declarations, 3) == InterpFrom(Machine(Sig2, [], [], [], "_"), Declarations, 6)
  {
    var m1 := Machine(Sig1, [], [], [], "_");
    var m2 := m1.(program := [Call(0)], stack := [StackFrame(O, Type)]);
    OpensO(Sig1, []);
    assert Declarations[3] == "o" && Declarations[4] == "}" && Declarations[5] == "z";
    assert FindSig(Sig1, "o") == Some(0);
    assert [] + [StackFrame(O, Type)] == [StackFrame(O, Type)] && m1.program + [Call(0)] == [Call(0)];
    assert LookupSpec(m1, "o") == Ok(m2);
    Advance(m1, Declarations, 3, m2, 4);
    CloseToken(m2, Declarations, 4);
    assert Sig2 == Sig1 + [SigFrame("z", AbsDctx([], O), [Call(0)])];
    Advance(m2, Declarations, 4, Machine(Sig2, [], [], [], "_"), 6);
  }

  lemma DeclareF()
    requires MachineOk(Machine(Sig2, [], [], [], "_"))
    ensures MachineOk(Machine(Sig3, [], [], [], "_"))
    ensures InterpFrom(Machine(Sig2, [], [], [], "_"), Declarations, 6) == InterpFrom(Machine(Sig3, [], [], [], "_"), Declarations, 11)
  {
    var m3 := Machine(Sig2, [], [], [], "_");
    var m4 := m3.(program := [Call(0)], stack := [StackFrame(O, Type)]);
    OpensO(Sig2, []);
    assert Declarations[6] == "o" && Declarations[7] == ArrowWord && Declarations[8] == "type";
    assert Declarations[9] == "}" && Declarations[10] == "f";
    assert FindSig(Sig2, "o") == Some(0);
    assert [] + [StackFrame(O, Type)] == [StackFrame(O, Type)] && m3.program + [Call(0)] == [Call(0)];
    assert LookupSpec(m3, "o") == Ok(m4);
    Advance(m3, Declarations, 6, m4, 7);
    var m5 := m3.(program := [Call(0), Arrow], dctx := [DefContextFrame("_", O)]);
    ArrowToken(m4, Declarations, 7);
    assert m4.stack[..0] == [] && m4.dctx + [DefContextFrame("_", O)] == [DefContextFrame("_", O)];
    assert m4.program + [Arrow] == [Call(0), Arrow];
    Advance(m4, Declarations, 7, m5, 8);
    var m6 := m5.(program := [Call(0), Arrow, IType], stack := [StackFrame(Type, Kind)]);
    TypeToken(m5, Declarations, 8);
    assert m5.program + [IType] == [Call(0), Arrow, IType];
    assert m5.stack + [StackFrame(Type, Kind)] == [StackFrame(Type, Kind)];
    Advance(m5, Declarations, 8, m6, 9);
    assert AbsDctx(m6.dctx, Type) == Pi(O, Type);
    CloseToken(m6, Declarations, 9);
    assert Sig3 == Sig2 + [SigFrame("f", AbsDctx(m6.dctx, Type), m6.program)];
    Advance(m6, Declarations, 9, Machine(Sig3, [], [], [], "_"), 11);
  }

  lemma ApplyF()
    requires MachineOk(Machine(Sig3, [], [], [], "_"))
    ensures InterpFrom(Machine(Sig3, [], [], [], "_"), Declarations, 11)
         == Ok(Machine(Sig3, [StackFrame(AppC(2, [AppC(1, [])]), Type)], [], [Call(1), Call(2)], "_"))
  {
    var m7 := Machine(Sig3, [], [], [], "_");
    CallsZ();
    var m8 := m7.(program := [Call(1)], stack := [StackFrame(AppC(1, []), O)]);
    assert Declarations[11] == "z" && Declarations[12] == "f";
    assert FindSig(Sig3, "z") == Some(1);
    assert LookupSpec(m7, "z") == Ok(m8);
    Advance(m7, Declarations, 11, m8, 12);
    CallsF();
    var m9 := m8.(program := [Call(1), Call(2)], stack := [StackFrame(AppC(2, [AppC(1, [])]), Type)]);
    assert FindSig(Sig3, "f") == Some(2);
    assert m8.program + [Call(2)] == [Call(1), Call(2)];
    assert LookupSpec(m8, "f") == Ok(m9);
    Advance(m8, Declarations, 12, m9, 13);
  }

  lemma CallsZ()
    requires SigOk(Sig3)
    ensures RunSpec(Sig3, 1, []) == Ok([StackFrame(AppC(1, []), O)])
  {
    OpensO(Sig3, []);
    assert [] + [StackFrame(O, Type)] == [StackFrame(O, Type)];
    assert Sig3[1].program[..1] == [Call(0)];
    assert ExecFrom(Sig3, 1, 1, [], [StackFrame(O, Type)]) == Ok(([], [StackFrame(O, Type)]));
    assert ExecFrom(Sig3, 1, 0, [], []) == Ok(([], [StackFrame(O, Type)]));
    assert [StackFrame(O, Type)][..0] + [StackFrame(AppC(1, Spine([])), O)] == [StackFrame(AppC(1, []), O)];
  }

  /** Applying `f` to `z`: the arrow of `f` checks `z`'s class `o`
      against the domain `o`, and the result is classified by `type`. */
  lemma CallsF()
    requires SigOk(Sig3)
    ensures RunSpec(Sig3, 2, [StackFrame(AppC(1, []), O)]) == Ok([StackFrame(AppC(2, [AppC(1, [])]), Type)])
  {
    var z := StackFrame(AppC(1, []), O);
    BodyOfF();
    assert Spine([z]) == [AppC(1, [])];
    assert [StackFrame(Type, Kind)][..0] + [StackFrame(AppC(2, [AppC(1, [])]), Type)] == [StackFrame(AppC(2, [AppC(1, [])]), Type)];
  }

  lemma BodyOfF()
    requires SigOk(Sig3)
    ensures ExecFrom(Sig3, 2, 0, [], [StackFrame(AppC(1, []), O)])
         == Ok(([StackFrame(AppC(1, []), O)], [StackFrame(Type, Kind)]))
  {
    var z := StackFrame(AppC(1, []), O);
    OpensO(Sig3, [z]);
    assert Sig3[2].program[..0] == [] && Sig3[2].program[..1] == [Call(0)];
    assert [z] + [StackFrame(O, Type)] == [z, StackFrame(O, Type)];
    ArrowOfF();
  }

  lemma ArrowOfF()
    requires SigOk(Sig3)
    ensures ExecFrom(Sig3, 2, 1, [], [StackFrame(AppC(1, []), O), StackFrame(O, Type)])
         == Ok(([StackFrame(AppC(1, []), O)], [StackFrame(Type, Kind)]))
  {
    var z := StackFrame(AppC(1, []), O);
    var p := Sig3[2].program;
    assert p[..1] == [Call(0)] && p[..2] == [Call(0), Arrow] && p[..3] == p;
    OIsO();
    assert ExecFrom(Sig3, 2, 3, [z], [StackFrame(Type, Kind)]) == Ok(([z], [StackFrame(Type, Kind)]));
    assert [] + [StackFrame(Type, Kind)] == [StackFrame(Type, Kind)];
    assert ExecFrom(Sig3, 2, 2, [z], []) == Ok(([z], [StackFrame(Type, Kind)]));
    assert [z, StackFrame(O, Type)][..1] == [z] && [z][..0] == [] && [z] + [] == [z];
  }

  lemma OIsO()
    ensures AssertEqual(Sig3, O, O) == Pass
  {
    assert FlattenSpine(Sig3, []) == Ok([]) && Sig3[0].name == "o" && [] + ["o"] == ["o"];
    assert Flatten(Sig3, O) == Ok(["o"]);
  }

  /** Calling `o` (entry 0, program `type`) pushes `o : type`. */
  lemma OpensO(sig: seq<SigFrame>, st: seq<StackFrame>)
    requires SigOk(sig) && |sig| > 0 && sig[0] == SigFrame("o", Type, [IType])
    ensures RunSpec(sig, 0, st) == Ok(st + [StackFrame(AppC(0, []), Type)])
  {
    assert sig[0].program[..1] == [IType];
    assert ExecFrom(sig, 0, 1, [], st + [StackFrame(Type, Kind)]) == Ok(([], st + [StackFrame(Type, Kind)]));
  }
}
