/** Rewriting preserves meaning: every run of the rewriting machine is a run of the original one. */
module RewritingProofs {
  import opened Options
  import opened Rewriting

  /** What an instruction start may hold, by what was loaded there. */
  lemma FinalShape(g: Program, p: nat)
    requires g.Ok() && p in g.starts
    ensures g.orig[p] == ILOAD ==> FAST_ILOAD <= Final(g, p) <= FAST_ICALOAD
    ensures g.orig[p] == ALOAD_0 ==> FAST_ALOAD_0 <= Final(g, p) <= FAST_FACCESS_0
    ensures g.orig[p] == GETFIELD ==>
              p + 2 < |g.orig| && Final(g, p) == Quick(g.EntryAt(p + 1).kind)
    ensures g.orig[p] != ILOAD && g.orig[p] != ALOAD_0 && g.orig[p] != GETFIELD ==> Final(g, p) == g.orig[p]
  {
    assert g.At(p, g.orig[p]);
  }

  /** The bytecode chosen from what follows an iload, at whatever moment it is read, is the final
      one, and what follows is then already what the pair relies on. */
  lemma ILoadChoosesFinal(g: Program, code: seq<nat>, p: nat)
    requires g.Ok() && CodeOk(g, code) && g.At(p, ILOAD)
    ensures p + 2 < |code|
    ensures var r := ILoadRewrite(code[p + 2]); r.Some? ==> r.value == Final(g, p) && PairReady(code, p, r.value)
  {
    assert p + 2 in g.starts;
    FinalShape(g, p + 2);
    assert g.At(p + 2, ILOAD) <==> g.orig[p + 2] == ILOAD;
    assert g.At(p + 2, CALOAD) <==> g.orig[p + 2] == CALOAD;
  }

  lemma ALoadChoosesFinal(g: Program, code: seq<nat>, p: nat)
    requires g.Ok() && CodeOk(g, code) && g.At(p, ALOAD_0)
    ensures p + 1 < |code|
    ensures var r := ALoadRewrite(code[p + 1]); r.Some? ==> r.value == Final(g, p) && PairReady(code, p, r.value)
  {
    assert p + 1 in g.starts;
    FinalShape(g, p + 1);
    assert g.At(p + 1, GETFIELD) <==> g.orig[p + 1] == GETFIELD;
    if g.At(p + 1, GETFIELD) { assert p + 4 in g.starts; }
  }

  /** A patch with the final bytecode of p leaves every installed pair valid: a successor that a
      pair relies on is final already. */
  lemma PatchKeepsPairs(g: Program, code: seq<nat>, p: nat, op: nat, q: nat, pair: nat)
    requires g.Ok() && CodeOk(g, code) && p in g.starts && p < |code| && op == Final(g, p)
    requires q in g.starts && PairReady(code, q, pair) && (pair == g.orig[q] || pair == Final(g, q))
    ensures PairReady(code[p := op], q, pair)
  {
    FinalShape(g, q);
    FinalShape(g, p);
    if g.orig[q] == ILOAD {
      assert g.At(q, ILOAD) && q + 2 in g.starts;
      FinalShape(g, q + 2);
    } else if g.orig[q] == ALOAD_0 {
      assert g.At(q, ALOAD_0) && q + 1 in g.starts;
      FinalShape(g, q + 1);
    }
  }

  lemma PatchKeeps(g: Program, s: State, t: nat, op: nat, th: Thread)
    requires g.Ok() && Inv(g, s) && t < |s.threads|
    requires op == Final(g, s.threads[t].bcp) && PairReady(s.code, s.threads[t].bcp, op)
    requires ThreadOk(g, s.code, th) && (th.micro.Ready? || th.micro.Exec?)
    ensures Inv(g, SetThread(Patch(s, s.threads[t].bcp, op), t, th))
  {
    var p := s.threads[t].bcp;
    assert ThreadOk(g, s.code, s.threads[t]);
    var code' := s.code[p := op];
    forall q | 0 <= q < |code'| && q in g.starts ensures PairReady(code', q, code'[q]) {
      PatchKeepsPairs(g, s.code, p, op, q, code'[q]);
    }
    forall u | 0 <= u < |s.threads| && u != t ensures ThreadOk(g, code', s.threads[u]) {
      var other := s.threads[u];
      assert ThreadOk(g, s.code, other);
      if other.micro.ILoadPatch? || other.micro.Finish? {
        PatchKeepsPairs(g, s.code, p, op, other.bcp, other.micro.op);
      }
    }
  }

  lemma ThreadOnlyKeeps(g: Program, s: State, t: nat, h: Heap, th: Thread)
    requires Inv(g, s) && t < |s.threads| && ThreadOk(g, s.code, th)
    ensures Inv(g, SetThread(s.(heap := h), t, th))
  {
  }

  /** An exception continues at an instruction start. */
  lemma ThrowStays(g: Program, at: nat, e: Exception, h: Heap, f: Frame)
    requires g.Ok()
    ensures Throw(g, at, e, h, f).bcp in g.starts
  {
    HandlerIsListed(g.table, at, e);
  }

  lemma {:induction false} HandlerIsListed(table: seq<Range>, p: nat, e: Exception)
    ensures FindHandler(table, p, e).Some? ==>
              exists i :: 0 <= i < |table| && table[i].handler == FindHandler(table, p, e).value
  {
    if table != [] && !(table[0].beg <= p < table[0].end && e in table[0].catches) {
      HandlerIsListed(table[1..], p, e);
      var b := FindHandler(table[1..], p, e);
      if b.Some? {
        var i :| 0 <= i < |table[1..]| && table[1..][i].handler == b.value;
        assert table[i + 1] == table[1..][i];
      }
    }
  }

  /** Exceptions continue at instruction starts. */
  ghost predicate ThrowsStay(g: Program) {
    forall at: nat, e: Exception, h: Heap, f: Frame :: Throw(g, at, e, h, f).bcp in g.starts
  }

  lemma AllThrowsStay(g: Program)
    requires g.Ok()
    ensures ThrowsStay(g)
  {
    forall at: nat, e: Exception, h: Heap, f: Frame ensures Throw(g, at, e, h, f).bcp in g.starts {
      ThrowStays(g, at, e, h, f);
    }
  }

  /** The instruction after an installed bytecode, fused or not, is an instruction start. */
  lemma EffectStays(g: Program, s: State, op: nat, p: nat, f: Frame, choice: int)
    requires g.Ok() && CodeOk(g, s.code) && p in g.starts && (op == g.orig[p] || op == Final(g, p))
    ensures Effect(g, s, op, p, f, choice).bcp in g.starts
  {
    AllThrowsStay(g);
    if g.orig[p] == ILOAD {
      ILoadStays(g, s, op, p, f, choice);
    } else if g.orig[p] == ALOAD_0 {
      ALoadStays(g, s, op, p, f, choice);
    } else {
      FinalShape(g, p);
      assert g.At(p, g.orig[p]);
    }
  }

  lemma ILoadStays(g: Program, s: State, op: nat, p: nat, f: Frame, choice: int)
    requires g.Ok() && ThrowsStay(g) && p in g.starts && g.orig[p] == ILOAD && (op == g.orig[p] || op == Final(g, p))
    ensures Effect(g, s, op, p, f, choice).bcp in g.starts
  {
    FinalShape(g, p);
    assert g.At(p, ILOAD) && p + 2 in g.starts;
    FinalShape(g, p + 2);
    assert g.At(p + 2, g.orig[p + 2]);
  }

  lemma ALoadStays(g: Program, s: State, op: nat, p: nat, f: Frame, choice: int)
    requires g.Ok() && ThrowsStay(g) && p in g.starts && g.orig[p] == ALOAD_0 && (op == g.orig[p] || op == Final(g, p))
    ensures Effect(g, s, op, p, f, choice).bcp in g.starts
  {
    FinalShape(g, p);
    assert g.At(p, ALOAD_0) && p + 1 in g.starts;
    assert g.At(p + 1, g.orig[p + 1]);
  }

  lemma LookKeeps(g: Program, s: State, step: Step)
    requires g.Ok() && Inv(g, s) && step.t < |s.threads|
    requires s.threads[step.t].micro.ILoadLook? || s.threads[step.t].micro.ALoadLook?
    ensures Inv(g, Apply(g, s, step))
  {
    assert ThreadOk(g, s.code, s.threads[step.t]);
    if s.threads[step.t].micro.ILoadLook? { ILoadLookOk(g, s, step); } else { ALoadLookOk(g, s, step); }
    ThreadOnlyKeeps(g, s, step.t, Apply(g, s, step).heap, Apply(g, s, step).threads[step.t]);
  }

  lemma ILoadLookOk(g: Program, s: State, step: Step)
    requires g.Ok() && CodeOk(g, s.code) && step.t < |s.threads| && ThreadOk(g, s.code, s.threads[step.t])
    requires s.threads[step.t].micro.ILoadLook?
    ensures var r := Apply(g, s, step);
            |r.threads| == |s.threads| && ThreadOk(g, s.code, r.threads[step.t])
            && r == SetThread(s.(heap := r.heap), step.t, r.threads[step.t])
  {
    var p := s.threads[step.t].bcp;
    ILoadChoosesFinal(g, s.code, p);
    var look := ILoadRewrite(s.code[p + 2]);
    assert Byte(s, p + 2) == s.code[p + 2];
    var th := s.threads[step.t].(micro := if look.None? then Exec(ILOAD) else ILoadPatch(look.value));
    assert Apply(g, s, step) == SetThread(s, step.t, th);
    assert ThreadOk(g, s.code, th);
  }

  lemma ALoadLookOk(g: Program, s: State, step: Step)
    requires g.Ok() && CodeOk(g, s.code) && step.t < |s.threads| && ThreadOk(g, s.code, s.threads[step.t])
    requires s.threads[step.t].micro.ALoadLook?
    ensures var r := Apply(g, s, step);
            |r.threads| == |s.threads| && ThreadOk(g, s.code, r.threads[step.t])
            && r == SetThread(s.(heap := r.heap), step.t, r.threads[step.t])
  {
    var p := s.threads[step.t].bcp;
    assert g.At(p, ALOAD_0) && p + 1 in g.starts;
    ALoadChoosesFinal(g, s.code, p);
  }

  lemma StepKeepsInv(g: Program, s: State, step: Step)
    requires g.Ok() && Inv(g, s) && step.t < |s.threads|
    ensures Inv(g, Apply(g, s, step))
  {
    var t, th := step.t, s.threads[step.t];
    var p := th.bcp;
    assert ThreadOk(g, s.code, th);
    assert g.At(p, g.orig[p]);
    match th.micro
    case Ready =>
      FinalShape(g, p);
      ThreadOnlyKeeps(g, s, t, s.heap, Apply(g, s, step).threads[t]);
    case ILoadLook => LookKeeps(g, s, step);
    case ALoadLook => LookKeeps(g, s, step);
    case ILoadPatch(op) =>
      PatchKeeps(g, s, t, op, th.(micro := Exec(ILOAD)));
    case Finish(op, next) =>
      PatchKeeps(g, s, t, op, Thread(next, th.frame, Ready));
    case Exec(op) =>
      ExecKeeps(g, s, step);
  }

  lemma OperandsAsLoaded(g: Program, code: seq<nat>, p: nat)
    requires g.Ok() && CodeOk(g, code) && p in g.starts
    ensures g.orig[p] == ILOAD ==> p + 2 < |code| && code[p + 1] == g.orig[p + 1]
    ensures g.orig[p] == GETFIELD ==>
              p + 3 < |code| && code[p + 1] == g.orig[p + 1] && code[p + 2] == g.orig[p + 2]
  {
    assert g.At(p, g.orig[p]);
  }

  /** The thread after an effect: at the next instruction, or about to install its final bytecode. */
  lemma ExecThread(g: Program, code: seq<nat>, op: nat, p: nat, f: Frame, next: nat, rewrite: bool)
    requires g.Ok() && CodeOk(g, code) && p in g.starts && (op == g.orig[p] || op == Final(g, p)) && next in g.starts
    ensures ThreadOk(g, code, Thread(next, f, Ready))
    ensures op == GETFIELD ==>
              p + 2 < |code| && ThreadOk(g, code, Thread(p, f, Finish(Quick(g.entry(code[p + 1], code[p + 2]).kind), next)))
  {
    FinalShape(g, p);
    OperandsAsLoaded(g, code, p);
  }

  lemma ExecKeeps(g: Program, s: State, step: Step)
    requires g.Ok() && Inv(g, s) && step.t < |s.threads| && s.threads[step.t].micro.Exec?
    ensures Inv(g, Apply(g, s, step))
  {
    var th := s.threads[step.t];
    var p, op := th.bcp, th.micro.op;
    assert ThreadOk(g, s.code, th);
    var n := Effect(g, s, op, p, th.frame, step.choice);
    EffectStays(g, s, op, p, th.frame, step.choice);
    ExecThread(g, s.code, op, p, n.frame, n.bcp, step.rewrite);
    ThreadOnlyKeeps(g, s, step.t, n.heap, Apply(g, s, step).threads[step.t]);
  }
}
