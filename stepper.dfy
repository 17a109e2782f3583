/** The stepping elaborator (forth-elf/src/state.ts): a token-by-token state
    machine that pushes (term : classifier) pairs, opens binder scopes on the
    metacontext stack, folds closed scopes into Pi types and appends named
    constants to the signature. Every transition builds a new `State`; a
    failure is recorded in `error` and stops the stepping. */
module Stepper {
  import opened Outcomes
  import opened Lexing
  import opened Parse
  import opened Ranges

  datatype Expr =
    | Type
    | Kind
    | Pi(a: Expr, b: Expr)
    | AppC(cid: string, spine: seq<Expr>)
    | AppV(head: string, spine: seq<Expr>)

  datatype SigEntry = SigEntry(name: string, klass: Expr, range: Rng)

  datatype CtxEntry = CtxEntry(name: Option<string>, klass: Expr, range: Rng)

  datatype MetaCtxEntry = Sub(sub: seq<CtxEntry>) | Ctx(ctx: seq<CtxEntry>)

  datatype CtlEntry = CtlEntry(pc: int)

  datatype StackEntry = StackEntry(term: Expr, klass: Expr)

  /** One snapshot. `ctx` and `ctl` are part of the record but no transition
      uses them. */
  datatype State = State(
    pc: nat,
    sig: seq<SigEntry>,
    ctx: seq<CtxEntry>,
    meta: seq<MetaCtxEntry>,
    ctl: seq<CtlEntry>,
    stack: seq<StackEntry>,
    toks: seq<Tok>,
    error: Option<string>)

  /** The range every signature and context entry is given. */
  const PlaceholderRange := Rng(0, 1)

  /** The base type `o` that the hard-coded identifiers work over. */
  const O := AppC("o", [])

  /** JavaScript truthiness of `state.error`: set and not the empty string. */
  predicate HasError(s: State) {
    s.error.Some? && s.error.value != ""
  }

  predicate IsClassifier(e: Expr) {
    e.Type? || e.Kind?
  }

  /** No `pi` anywhere in the expression. */
  predicate PiFree(e: Expr) {
    match e
    case Type => true
    case Kind => true
    case Pi(_, _) => false
    case AppC(_, spine) => forall k :: 0 <= k < |spine| ==> PiFree(spine[k])
    case AppV(_, spine) => forall k :: 0 <= k < |spine| ==> PiFree(spine[k])
  }

  /** The invariant of every state reachable from `MkState`: no classifier on
      the stack contains a `pi`, so the flatten-based comparisons of `s` and
      `b` never meet the case `flatten` refuses. */
  predicate Wf(s: State) {
    forall k :: 0 <= k < |s.stack| ==> PiFree(s.stack[k].klass)
  }

  /** `mkState`: everything empty, at the first token, no error. */
  function MkState(toks: seq<Tok>): (s: State)
    ensures Wf(s) && !HasError(s)
  {
    State(0, [], [], [], [], [], toks, None)
  }

  /** `popStack`: the top entry and the state without it; `None` on an empty stack. */
  function PopStack(s: State): (r: Option<(StackEntry, State)>)
    ensures r.None? <==> s.stack == []
    ensures r.Some? ==> r.value.0 == s.stack[|s.stack| - 1]
                        && r.value.1 == s.(stack := s.stack[..|s.stack| - 1])
  {
    if |s.stack| == 0 then None
    else Some((s.stack[|s.stack| - 1], s.(stack := s.stack[..|s.stack| - 1])))
  }

  /** `popMeta`: the top metacontext frame and the state without it. */
  function PopMeta(s: State): (r: Option<(MetaCtxEntry, State)>)
    ensures r.None? <==> s.meta == []
    ensures r.Some? ==> r.value.0 == s.meta[|s.meta| - 1]
                        && r.value.1 == s.(meta := s.meta[..|s.meta| - 1])
  {
    if |s.meta| == 0 then None
    else Some((s.meta[|s.meta| - 1], s.(meta := s.meta[..|s.meta| - 1])))
  }

  // ---------------------------------------------------------------------
  // Pi folding

  /** The term `formPi` builds: one `pi` per context entry around `t`, the
      first entry innermost and the last entry outermost. */
  function PiFold(ctx: seq<CtxEntry>, t: Expr): Expr
    decreases |ctx|
  {
    if ctx == [] then t
    else Pi(ctx[|ctx| - 1].klass, PiFold(ctx[..|ctx| - 1], t))
  }

  /** `formPi`: the loop that wraps the base term once per context entry. */
  method FormPi(ctx: seq<CtxEntry>, base: StackEntry) returns (r: StackEntry)
    ensures r.term == PiFold(ctx, base.term)
    ensures r.klass == base.klass
  {
    var term := base.term;
    for i := 0 to |ctx|
      invariant term == PiFold(ctx[..i], base.term)
    {
      assert ctx[..i + 1][..i] == ctx[..i];
      term := Pi(ctx[i].klass, term);
    }
    assert ctx[..|ctx|] == ctx;
    r := StackEntry(term, base.klass);
  }

  /** Number of `pi` binders in front of an expression. */
  function PiDepth(e: Expr): nat {
    if e.Pi? then 1 + PiDepth(e.b) else 0
  }

  /** The `k`-th binder domain from the outside (`k < PiDepth(e)`). */
  function Domain(e: Expr, k: nat): Expr
    requires k < PiDepth(e)
  {
    if k == 0 then e.a else Domain(e.b, k - 1)
  }

  /** The expression under all the leading binders. */
  function Body(e: Expr): Expr {
    if e.Pi? then Body(e.b) else e
  }

  /** Folding adds exactly one binder per context entry, keeps the base below
      them, and the `k`-th binder from the outside is the `k`-th entry from
      the end of the context. */
  lemma {:induction false} PiFoldShape(ctx: seq<CtxEntry>, t: Expr)
    ensures PiDepth(PiFold(ctx, t)) == |ctx| + PiDepth(t)
    ensures Body(PiFold(ctx, t)) == Body(t)
    ensures forall k :: 0 <= k < |ctx| ==> Domain(PiFold(ctx, t), k) == ctx[|ctx| - 1 - k].klass
    decreases |ctx|
  {
    if ctx != [] {
      var init := ctx[..|ctx| - 1];
      PiFoldShape(init, t);
      forall k | 0 <= k < |ctx|
        ensures Domain(PiFold(ctx, t), k) == ctx[|ctx| - 1 - k].klass
      {
        if k > 0 {
          assert Domain(PiFold(ctx, t), k) == Domain(PiFold(init, t), k - 1);
          assert init[|init| - 1 - (k - 1)] == ctx[|ctx| - 1 - k];
        }
      }
    }
  }

  // ---------------------------------------------------------------------
  // Flatten-based equality

  /** `flatten`: each spine element flattened, the spine reversed and
      concatenated, the head appended. `None` stands for the exception
      `flatten` throws on a `pi`. */
  function Flatten(e: Expr): Option<seq<string>> {
    match e
    case Type => Some(["type"])
    case Kind => Some(["kind"])
    case Pi(_, _) => None
    case AppC(cid, spine) =>
      (match FlattenSpine(spine)
       case None => None
       case Some(s) => Some(s + [cid]))
    case AppV(head, spine) =>
      match FlattenSpine(spine)
      case None => None
      case Some(s) => Some(s + [head])
  }

  /** The flattened spine elements, last element first. */
  function FlattenSpine(spine: seq<Expr>): Option<seq<string>> {
    if spine == [] then Some([])
    else
      match FlattenSpine(spine[1..])
      case None => None
      case Some(rest) =>
        (match Flatten(spine[0])
         case None => None
         case Some(first) => Some(rest + first))
  }

  /** `flatten` is defined exactly on the pi-free expressions. */
  lemma {:induction false} FlattenDefined(e: Expr)
    ensures Flatten(e).Some? <==> PiFree(e)
  {
    match e
    case Type =>
    case Kind =>
    case Pi(_, _) =>
    case AppC(_, spine) => FlattenSpineDefined(spine);
    case AppV(_, spine) => FlattenSpineDefined(spine);
  }

  lemma {:induction false} FlattenSpineDefined(spine: seq<Expr>)
    ensures FlattenSpine(spine).Some? <==> forall k :: 0 <= k < |spine| ==> PiFree(spine[k])
  {
    if spine != [] {
      FlattenSpineDefined(spine[1..]);
      FlattenDefined(spine[0]);
      assert forall k :: 1 <= k < |spine| ==> spine[k] == spine[1..][k - 1];
    }
  }

  /** `exprEqual`: the flattened forms, joined with spaces, are the same
      string. Its callers only pass pi-free expressions. */
  predicate ExprEqual(e1: Expr, e2: Expr)
    requires PiFree(e1) && PiFree(e2)
  {
    FlattenDefined(e1);
    FlattenDefined(e2);
    Unwords(Flatten(e1).value) == Unwords(Flatten(e2).value)
  }

  /** `exprEqual` is reflexive, and tells the constants `o` and `k` apart. */
  lemma ExprEqualSanity(e: Expr)
    requires PiFree(e)
    ensures ExprEqual(e, e)
    ensures !ExprEqual(AppC("o", []), AppC("k", []))
  {
  }

  /** The comparison is not structural equality: it forgets the nesting of
      spines and whether a head is a constant or a variable. */
  lemma ExprEqualIsCoarse()
    ensures ExprEqual(AppC("f", [AppC("g", [AppC("a", [])])]),
                      AppC("f", [AppC("g", []), AppC("a", [])]))
    ensures ExprEqual(AppC("s", [O]), AppV("s", [O]))
  {
    FlattenConst("a");
    FlattenConst("g");
    FlattenConst("o");
    var a := AppC("a", []);
    var g := AppC("g", []);
    assert [a][1..] == [] && [g, a][1..] == [a] && [O][1..] == [];
    assert FlattenSpine([a]) == Some(["a"]);
    assert ["a"] + ["g"] == ["a", "g"];
    assert [] + ["a", "g"] == ["a", "g"];
    assert Flatten(AppC("g", [a])) == Some(["a", "g"]);
    assert FlattenSpine([AppC("g", [a])]) == Some(["a", "g"]);
    assert FlattenSpine([g, a]) == Some(["a", "g"]);
    assert FlattenSpine([O]) == Some(["o"]);
  }

  lemma FlattenConst(c: string)
    ensures Flatten(AppC(c, [])) == Some([c])
  {
    assert FlattenSpine([]) == Some([]);
    assert [] + [c] == [c];
  }

  lemma UnwordsIsO(x: seq<string>)
    ensures Unwords(x) == "o" <==> x == ["o"]
  {
    if |x| >= 2 {
      var u := Unwords(x);
      assert u == x[0] + " " + Unwords(x[1..]);
      assert u[|x[0]|] == ' ';
    }
  }

  /** A classifier on the stack is `o` in the sense of `exprEqual` exactly when
      it flattens to the single name `o`. */
  lemma ExprEqualO(e: Expr)
    requires PiFree(e)
    ensures ExprEqual(e, O) <==> Flatten(e) == Some(["o"])
  {
    FlattenDefined(e);
    FlattenConst("o");
    UnwordsIsO(Flatten(e).value);
  }

  // ---------------------------------------------------------------------
  // The transitions

  function WithError(s: State, msg: string): State {
    s.(error := Some(msg))
  }

  function Push(s: State, e: StackEntry): State {
    s.(stack := s.stack + [e])
  }

  function Top(s: State): StackEntry
    requires s.stack != []
  {
    s.stack[|s.stack| - 1]
  }

  function Popped(s: State): State
    requires s.stack != []
  {
    s.(stack := s.stack[..|s.stack| - 1])
  }

  function NameOr(n: Option<string>): string {
    match n
    case Some(x) => x
    case None => "_"
  }

  /** `.`: bind the classifier on top of the stack as a new signature entry. */
  function ExecDot(s: State, name: Option<string>): (r: State)
    requires Wf(s)
    ensures Wf(r)
    ensures r.pc == s.pc && r.toks == s.toks && r.ctx == s.ctx && r.ctl == s.ctl
    ensures r.error != s.error ==> HasError(r)
  {
    match PopStack(s)
    case None => WithError(s, "stack underflow during .")
    case Some((elt, s1)) =>
      if !IsClassifier(elt.klass) then WithError(s, "expected classifier on stack during .")
      else s1.(sig := s1.sig + [SigEntry(NameOr(name), elt.term, PlaceholderRange)])
  }

  /** `>`: move the top of the stack into the innermost open context. */
  function ExecBind(s: State, name: Option<string>): (r: State)
    requires Wf(s)
    ensures Wf(r)
    ensures r.pc == s.pc && r.toks == s.toks && r.ctx == s.ctx && r.ctl == s.ctl
    ensures r.error != s.error ==> HasError(r)
  {
    match PopStack(s)
    case None => WithError(s, "stack underflow during >")
    case Some((elt, s1)) =>
      if |s.meta| == 0 then WithError(s, "metacontext underflow during >")
      else
        var top := s.meta[|s.meta| - 1];
        if !top.Ctx? then WithError(s, "expected ctx during >")
        else
          var frame := Ctx(top.ctx + [CtxEntry(name, elt.term, PlaceholderRange)]);
          s1.(meta := s.meta[|s.meta| - 1 := frame])
  }

  /** `(`: open an empty binder context. */
  function ExecOpen(s: State): State {
    s.(meta := s.meta + [Ctx([])])
  }

  /** `)`: close the innermost context around the classifier on top of the stack. */
  function ExecClose(s: State): (r: State)
    requires Wf(s)
    ensures Wf(r)
    ensures r.pc == s.pc && r.toks == s.toks && r.ctx == s.ctx && r.ctl == s.ctl
    ensures r.error != s.error ==> HasError(r)
  {
    match PopStack(s)
    case None => WithError(s, "stack underflow during )")
    case Some((entry, s1)) =>
      if !IsClassifier(entry.klass) then WithError(s, "expected classifier on stack during .")
      else
        match PopMeta(s1)
        case None => WithError(s1, "metacontext underflow during )")
        case Some((frame, s2)) =>
          if !frame.Ctx? then WithError(s, "expected ctx during >")
          else Push(s2, StackEntry(PiFold(frame.ctx, entry.term), entry.klass))
  }

  /** The hard-coded identifiers: the constants `o`, `l`, `k`, the successor
      `s : o -> o` and the binary `b : o -> o -> type`. */
  function ExecId(s: State, name: string): (r: State)
    requires Wf(s)
    ensures Wf(r)
    ensures r.pc == s.pc && r.toks == s.toks && r.ctx == s.ctx && r.ctl == s.ctl
    ensures r.error != s.error ==> HasError(r)
  {
    if name == "o" then Push(s, StackEntry(AppC("o", []), Type))
    else if name == "l" then Push(s, StackEntry(AppC("l", []), O))
    else if name == "k" then Push(s, StackEntry(AppC("k", []), O))
    else if name == "s" then
      (match PopStack(s)
       case None => WithError(s, "stack underflow during s")
       case Some((elt, s1)) =>
         if !ExprEqual(elt.klass, O) then WithError(s, "type mismatch during s")
         else Push(s1, StackEntry(AppC("s", [elt.term]), O)))
    else if name == "b" then
      (match PopStack(s)
       case None => WithError(s, "stack underflow during s")
       case Some((elt1, s1)) =>
         if !ExprEqual(elt1.klass, O) then WithError(s, "type mismatch during s")
         else
           match PopStack(s1)
           case None => WithError(s1, "stack underflow during s")
           case Some((elt2, s2)) =>
             if !ExprEqual(elt2.klass, O) then WithError(s1, "type mismatch during s")
             else Push(s2, StackEntry(AppC("b", [elt1.term, elt2.term]), Type)))
    else WithError(s, "unimplemented identifier " + name)
  }

  /** `execInstruction`: one transition. It never moves the pc nor touches
      the tokens, keeps the invariant `Wf`, and every error it records is a
      non-empty message. */
  function ExecInstruction(s: State, inst: Tok): (r: State)
    requires Wf(s)
    ensures Wf(r)
    ensures r.pc == s.pc && r.toks == s.toks && r.ctx == s.ctx && r.ctl == s.ctl
    ensures r.error != s.error ==> HasError(r)
  {
    match inst
    case TType => Push(s, StackEntry(Type, Kind))
    case Dot(name) => ExecDot(s, name)
    case Id(name) => ExecId(s, name)
    case Bind(name) => ExecBind(s, name)
    case LParen => ExecOpen(s)
    case RParen => ExecClose(s)
    case LBracket => WithError(s, "unimplemented instruction [")
    case RBracket => WithError(s, "unimplemented instruction ]")
  }

  // ---------------------------------------------------------------------
  // What each instruction does

  /** `type` pushes `(type : kind)` and changes nothing else. */
  lemma TypeStep(s: State)
    requires Wf(s)
    ensures ExecInstruction(s, TType) == s.(stack := s.stack + [StackEntry(Type, Kind)])
  {
  }

  /** `.` fails, leaving stack and signature alone, on an empty stack or a
      non-classifier on top; otherwise it pops one entry and appends one
      signature entry, named by the token or `_`, whose class is the popped term. */
  lemma DotStep(s: State, name: Option<string>)
    requires Wf(s)
    ensures var r := ExecInstruction(s, Dot(name));
      && (s.stack == [] ==> r == WithError(s, "stack underflow during ."))
      && (s.stack != [] && !IsClassifier(Top(s).klass) ==>
            r == WithError(s, "expected classifier on stack during ."))
      && (s.stack != [] && IsClassifier(Top(s).klass) ==>
            r == s.(stack := s.stack[..|s.stack| - 1],
                    sig := s.sig + [SigEntry(NameOr(name), Top(s).term, PlaceholderRange)]))
  {
  }

  /** `(` pushes one empty binder context. */
  lemma OpenStep(s: State)
    requires Wf(s)
    ensures ExecInstruction(s, LParen) == s.(meta := s.meta + [Ctx([])])
  {
  }

  /** `>` fails on an empty stack, an empty metacontext or a `sub` frame on
      top; otherwise it pops one entry and appends it, under the token's name,
      to the innermost context, leaving the other frames and the signature alone. */
  lemma BindStep(s: State, name: Option<string>)
    requires Wf(s)
    ensures var r := ExecInstruction(s, Bind(name));
      && (s.stack == [] ==> r == WithError(s, "stack underflow during >"))
      && (s.stack != [] && s.meta == [] ==> r == WithError(s, "metacontext underflow during >"))
      && (s.stack != [] && s.meta != [] && s.meta[|s.meta| - 1].Sub? ==>
            r == WithError(s, "expected ctx during >"))
      && (s.stack != [] && s.meta != [] && s.meta[|s.meta| - 1].Ctx? ==>
            var m := |s.meta| - 1;
            && r.stack == s.stack[..|s.stack| - 1]
            && |r.meta| == |s.meta|
            && r.meta[..m] == s.meta[..m]
            && r.meta[m] == Ctx(s.meta[m].ctx + [CtxEntry(name, Top(s).term, PlaceholderRange)])
            && r.sig == s.sig && r.error == s.error)
  {
    if s.stack != [] && s.meta != [] && s.meta[|s.meta| - 1].Ctx? {
      var r := ExecInstruction(s, Bind(name));
      var m := |s.meta| - 1;
      assert r.meta == s.meta[m := Ctx(s.meta[m].ctx + [CtxEntry(name, Top(s).term, PlaceholderRange)])];
    }
  }

  /** `)` needs a classifier on top of the stack and a binder context on top of
      the metacontext. It pops both and pushes the classifier's term folded
      under one `pi` per context entry, keeping the classifier. A missing
      context is reported on the state with the stack already popped. */
  lemma CloseStep(s: State)
    requires Wf(s)
    ensures var r := ExecInstruction(s, RParen);
      && (s.stack == [] ==> r == WithError(s, "stack underflow during )"))
      && (s.stack != [] && !IsClassifier(Top(s).klass) ==>
            r == WithError(s, "expected classifier on stack during ."))
      && (s.stack != [] && IsClassifier(Top(s).klass) && s.meta == [] ==>
            r == WithError(Popped(s), "metacontext underflow during )"))
      && (s.stack != [] && IsClassifier(Top(s).klass) && s.meta != [] && s.meta[|s.meta| - 1].Sub? ==>
            r == WithError(s, "expected ctx during >"))
      && (s.stack != [] && IsClassifier(Top(s).klass) && s.meta != [] && s.meta[|s.meta| - 1].Ctx? ==>
            r == s.(stack := s.stack[..|s.stack| - 1]
                               + [StackEntry(PiFold(s.meta[|s.meta| - 1].ctx, Top(s).term), Top(s).klass)],
                    meta := s.meta[..|s.meta| - 1]))
  {
  }

  /** The constants `o : type`, `l : o` and `k : o` are pushed as they are. */
  lemma ConstantSteps(s: State)
    requires Wf(s)
    ensures ExecInstruction(s, Id("o")) == Push(s, StackEntry(AppC("o", []), Type))
    ensures ExecInstruction(s, Id("l")) == Push(s, StackEntry(AppC("l", []), O))
    ensures ExecInstruction(s, Id("k")) == Push(s, StackEntry(AppC("k", []), O))
  {
  }

  /** `s` applies the successor to one argument whose class is `o`. */
  lemma SuccStep(s: State)
    requires Wf(s)
    ensures var r := ExecInstruction(s, Id("s"));
      && (s.stack == [] ==> r == WithError(s, "stack underflow during s"))
      && (s.stack != [] && !ExprEqual(Top(s).klass, O) ==> r == WithError(s, "type mismatch during s"))
      && (s.stack != [] && ExprEqual(Top(s).klass, O) ==>
            r == s.(stack := s.stack[..|s.stack| - 1] + [StackEntry(AppC("s", [Top(s).term]), O)]))
  {
  }

  /** `b` takes two arguments of class `o`, the former top first in the
      spine, and pushes a `type`. A failure on the second argument is
      reported on the state with the first already popped. */
  lemma PairStep(s: State)
    requires Wf(s)
    ensures var r := ExecInstruction(s, Id("b"));
      var n := |s.stack|;
      && (n == 0 ==> r == WithError(s, "stack underflow during s"))
      && (n >= 1 && !ExprEqual(s.stack[n - 1].klass, O) ==> r == WithError(s, "type mismatch during s"))
      && (n == 1 && ExprEqual(s.stack[0].klass, O) ==> r == WithError(Popped(s), "stack underflow during s"))
      && (n >= 2 && ExprEqual(s.stack[n - 1].klass, O) && !ExprEqual(s.stack[n - 2].klass, O) ==>
            r == WithError(Popped(s), "type mismatch during s"))
      && (n >= 2 && ExprEqual(s.stack[n - 1].klass, O) && ExprEqual(s.stack[n - 2].klass, O) ==>
            r == s.(stack := s.stack[..n - 2]
                      + [StackEntry(AppC("b", [s.stack[n - 1].term, s.stack[n - 2].term]), Type)]))
  {
    var n := |s.stack|;
    if n >= 2 {
      assert s.stack[..n - 1][..n - 2] == s.stack[..n - 2];
    }
  }

  /** Every other identifier, and the lambda brackets, only record an error. */
  lemma UnimplementedSteps(s: State, name: string)
    requires Wf(s)
    requires name !in {"o", "l", "k", "s", "b"}
    ensures ExecInstruction(s, Id(name)) == WithError(s, "unimplemented identifier " + name)
    ensures ExecInstruction(s, LBracket) == WithError(s, "unimplemented instruction [")
    ensures ExecInstruction(s, RBracket) == WithError(s, "unimplemented instruction ]")
  {
  }

  // ---------------------------------------------------------------------
  // Stepping and the run loop

  /** What `stepForward` as written can do: stop, continue, or crash, because
      it fetches `toks[pc]` before looking at `pc` and then reads the tag of
      `undefined`. */
  datatype StepOutcome = Halt | Next(state: State) | Crash

  /** `stepForward` exactly as written. */
  function StepForwardAsWritten(s: State): StepOutcome
    requires Wf(s)
  {
    if HasError(s) then Halt
    else if s.pc >= |s.toks| then Crash
    else
      var t := ExecInstruction(s, s.toks[s.pc]).(pc := s.pc + 1);
      if t.pc >= |t.toks| then Halt else Next(t)
  }

  /** A blank program (no tokens) crashes the first step. */
  lemma EmptyProgramCrashes()
    ensures StepForwardAsWritten(MkState([])) == Crash
  {
  }

  /** `stepForward` with the missing bound check: no successor once the pc is
      past the tokens. Otherwise it agrees with the code as written. */
  function StepForward(s: State): (r: Option<State>)
    requires Wf(s)
    ensures r.None? <==> HasError(s) || s.pc + 1 >= |s.toks|
    ensures r.Some? ==> Wf(r.value) && r.value.pc == s.pc + 1 && r.value.toks == s.toks
    ensures StepForwardAsWritten(s) != Crash ==>
              r == (match StepForwardAsWritten(s) case Next(t) => Some(t) case _ => None)
  {
    if HasError(s) || s.pc >= |s.toks| then None
    else
      var t := ExecInstruction(s, s.toks[s.pc]).(pc := s.pc + 1);
      if t.pc >= |t.toks| then None else Some(t)
  }

  /** Every state `StepForward` produces is one the code as written would
      have produced; the two differ only where the code crashes. */
  lemma StepForwardCrashOnly(s: State)
    requires Wf(s)
    ensures StepForwardAsWritten(s) == Crash <==> !HasError(s) && s.pc >= |s.toks|
  {
  }

  /** The trace `run` collects with `fuel` iterations left. */
  function Trace(s: State, fuel: nat): seq<State>
    requires Wf(s)
    decreases fuel
  {
    if fuel == 0 then []
    else
      [s] + (match StepForward(s)
             case None => []
             case Some(t) => Trace(t, fuel - 1))
  }

  lemma TraceUnfold(s: State, fuel: nat)
    requires Wf(s) && fuel >= 1
    ensures Trace(s, fuel) == [s] + (match StepForward(s)
                                     case None => []
                                     case Some(t) => Trace(t, fuel - 1))
  {
  }

  /** The iteration cap of `run`. */
  const MaxSteps := 100

  /** `run`: collect states until there is no successor or the cap is reached. */
  method Run(s0: State) returns (states: seq<State>)
    requires Wf(s0)
    ensures states == Trace(s0, MaxSteps)
  {
    states := [];
    var state := s0;
    for i := 0 to MaxSteps
      invariant Wf(state)
      invariant states + Trace(state, MaxSteps - i) == Trace(s0, MaxSteps)
    {
      TraceUnfold(state, MaxSteps - i);
      states := states + [state];
      var next := StepForward(state);
      if next.None? {
        return;
      }
      state := next.value;
    }
  }

  /** The shape of a trace: it starts with the initial state, has at least one
      and at most `fuel` states, consecutive states are related by
      `StepForward`, the pc goes up by one per state, no state but the last
      carries an error, and a trace shorter than the cap ends at a state
      without a successor. */
  lemma {:induction false} TraceShape(s: State, fuel: nat)
    requires Wf(s) && fuel >= 1
    ensures var tr := Trace(s, fuel);
      && 1 <= |tr| <= fuel
      && tr[0] == s
      && (forall k :: 0 <= k < |tr| ==> Wf(tr[k]) && tr[k].pc == s.pc + k && tr[k].toks == s.toks)
      && (forall k :: 0 <= k < |tr| - 1 ==> StepForward(tr[k]) == Some(tr[k + 1]))
      && (forall k :: 0 <= k < |tr| - 1 ==> !HasError(tr[k]))
      && (|tr| < fuel ==> StepForward(tr[|tr| - 1]).None?)
    decreases fuel
  {
    var tr := Trace(s, fuel);
    match StepForward(s)
    case None =>
      assert tr == [s];
    case Some(t) =>
      if fuel == 1 {
        assert tr == [s];
      } else {
        TraceShape(t, fuel - 1);
        var rest := Trace(t, fuel - 1);
        assert tr == [s] + rest;
        assert forall k :: 1 <= k < |tr| ==> tr[k] == rest[k - 1];
      }
  }

  /** The trace of a token list never extends past its tokens: it has at most
      `|toks|` states, so the effect of the last token never shows in it. */
  lemma {:induction false} TraceWithinTokens(toks: seq<Tok>)
    ensures |Trace(MkState(toks), MaxSteps)| <= if toks == [] then 1 else |toks|
  {
    var s := MkState(toks);
    var tr := Trace(s, MaxSteps);
    TraceShape(s, MaxSteps);
    if |tr| >= 2 {
      var last := |tr| - 2;
      assert StepForward(tr[last]) == Some(tr[last + 1]);
      assert tr[last].pc + 1 < |toks|;
    }
  }

  /** `type : o .` parses to `type` and a `.` named `o`: the trace holds the
      initial state and the state after `type`, while the state after the
      `.`, whose signature holds `o : type`, is never part of it. */
  lemma ScenarioTypeO()
    ensures var toks := [TType, Dot(Some("o"))];
      var s1 := MkState(toks).(pc := 1, stack := [StackEntry(Type, Kind)]);
      && Trace(MkState(toks), MaxSteps) == [MkState(toks), s1]
      && ExecInstruction(s1, Dot(Some("o"))).sig == [SigEntry("o", Type, PlaceholderRange)]
      && ExecInstruction(s1, Dot(Some("o"))).stack == []
  {
    var toks := [TType, Dot(Some("o"))];
    var s0 := MkState(toks);
    var s1 := s0.(pc := 1, stack := [StackEntry(Type, Kind)]);
    assert ExecInstruction(s0, TType) == s0.(stack := [StackEntry(Type, Kind)]);
    assert StepForward(s0) == Some(s1);
    assert StepForward(s1) == None;
    assert Trace(s1, MaxSteps - 1) == [s1];
  }
}
