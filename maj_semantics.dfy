/**
  What the structural matches of lsvMajFind.cpp mean under every input
  assignment: a complementary gate is never 1 together with its partner, and
  a node reported with three nonzero literals computes their majority.
 */
module MajSemantics {
  import opened Aig
  import opened MajFind
  import opened Basics

  /** The value of a sign-encoded literal: negative means complemented. */
  function LitVal(g: Network, env: nat -> bool, l: int): bool
    requires Wf(g) && l != 0 && IsSignal(g, IdOf(l))
  {
    if l > 0 then Eval(g, env, l) else !Eval(g, env, -l)
  }

  /** Lsv_isCompGate is symmetric, also when both fanin-equality branches apply. */
  lemma IsCompGateSymmetric(p: Node, q: Node)
    requires !p.Po? && !q.Po?
    ensures IsCompGate(p, q) == IsCompGate(q, p)
  {
  }

  /** A gate is never complementary to itself. */
  lemma IsCompGateIrreflexive(p: Node)
    requires !p.Po?
    ensures !IsCompGate(p, p)
  {
  }

  /**
    When `q` is a complementary gate of `p`, `q` computes the AND of the
    negations of `p`'s two fanin literals, so `p` and `q` are never both 1.
   */
  lemma CompGateSemantics(g: Network, env: nat -> bool, p: nat, q: nat)
    requires Wf(g) && IsSignal(g, p) && IsSignal(g, q)
    requires IsCompGate(g.objs[p], g.objs[q])
    ensures g.objs[p].And?
    ensures Eval(g, env, q) == (!EdgeVal(g, env, p, S0) && !EdgeVal(g, env, p, S1))
    ensures !(Eval(g, env, p) && Eval(g, env, q))
  {
    var np, nq := g.objs[p], g.objs[q];
    assert Eval(g, env, p) == (EdgeVal(g, env, p, S0) && EdgeVal(g, env, p, S1));
    assert Eval(g, env, q) == ((Eval(g, env, nq.f0) != nq.c0) && (Eval(g, env, nq.f1) != nq.c1));
  }

  /** Decoding the sign encoding of a literal with a positive id gives back its value. */
  lemma SignedLitVal(g: Network, env: nat -> bool, id: nat, compl: bool)
    requires Wf(g) && id > 0 && IsSignal(g, id)
    ensures IdOf(Signed(id, compl)) == id && IdOf(-Signed(id, compl)) == id
    ensures LitVal(g, env, Signed(id, compl)) == (Eval(g, env, id) != compl)
    ensures LitVal(g, env, -Signed(id, compl)) == (Eval(g, env, id) == compl)
  {
  }

  /** A report with three nonzero entries comes from a complemented inner edge and names three literals. */
  lemma ReportLiterals(g: Network, g6: nat, s: Slot)
    requires Wf(g) && g6 < |g.objs| && g.objs[g6].And? && g.objs[Fanin(g.objs[g6], s)].And?
    requires var t := Report(g, g6, s); t.x != 0 && t.y != 0 && t.z != 0
    ensures var n6 := g.objs[g6];
            var n5 := g.objs[Fanin(n6, s)];
            && FaninC(n6, s)
            && Fanin(n6, s.Other()) > 0 && n5.f0 > 0 && n5.f1 > 0
  {
  }

  /** An AND node is the conjunction of its two edges, taken in either slot order. */
  lemma AndEval(g: Network, env: nat -> bool, id: nat, s: Slot)
    requires Wf(g) && id < |g.objs| && g.objs[id].And?
    ensures Eval(g, env, id) == (EdgeVal(g, env, id, s) && EdgeVal(g, env, id, s.Other()))
  {
  }

  /**
    The literals of a report with three nonzero entries are the negation of
    the edge from `g6` to its other fanin and the two edges of `g5`.
   */
  lemma ReportLitVals(g: Network, env: nat -> bool, g6: nat, s: Slot)
    requires Wf(g) && g6 < |g.objs| && g.objs[g6].And? && g.objs[Fanin(g.objs[g6], s)].And?
    requires var t := Report(g, g6, s); t.x != 0 && t.y != 0 && t.z != 0
    ensures var t := Report(g, g6, s);
            var g5 := Fanin(g.objs[g6], s);
            && FaninC(g.objs[g6], s)
            && LitVal(g, env, t.x) == !EdgeVal(g, env, g6, s.Other())
            && LitVal(g, env, t.y) == EdgeVal(g, env, g5, S0)
            && LitVal(g, env, t.z) == EdgeVal(g, env, g5, S1)
  {
    var n6 := g.objs[g6];
    var n5 := g.objs[Fanin(n6, s)];
    ReportLiterals(g, g6, s);
    assert Report(g, g6, s) == Triple(-Signed(Fanin(n6, s.Other()), FaninC(n6, s.Other())),
                                      -Signed(n5.f0, !n5.c0), -Signed(n5.f1, !n5.c1));
    SignedLitVal(g, env, Fanin(n6, s.Other()), FaninC(n6, s.Other()));
    SignedLitVal(g, env, n5.f0, !n5.c0);
    SignedLitVal(g, env, n5.f1, !n5.c1);
  }

  /** The Boolean core of the pattern: NOT g6 AND NOT h is MAJ(NOT a, b, c). */
  lemma PatternIsMaj(g6: bool, g5: bool, h: bool, a: bool, b: bool, c: bool)
    requires g5 == (b && c) && h == (!b && !c) && g6 == (!g5 && a)
    ensures (!g6 && !h) == Maj(!a, b, c)
  {
  }

  /**
    One pattern: the node is the AND of the complements of `g6` and `h`, the
    fanin of `g6` in slot `s` is `g5`, and `h` is a complementary gate of
    `g5`. If the report names three literals, the node is their majority.
   */
  lemma ReportSound(g: Network, env: nat -> bool, id: nat, g6: nat, s: Slot, h: nat)
    requires Wf(g) && IsSignal(g, id) && IsSignal(g, g6) && IsSignal(g, h)
    requires Eval(g, env, id) == (!Eval(g, env, g6) && !Eval(g, env, h))
    requires g.objs[g6].And? && g.objs[Fanin(g.objs[g6], s)].And?
    requires IsCompGate(g.objs[Fanin(g.objs[g6], s)], g.objs[h])
    requires var t := Report(g, g6, s); t.x != 0 && t.y != 0 && t.z != 0
    ensures var t := Report(g, g6, s);
            Eval(g, env, id) == Maj(LitVal(g, env, t.x), LitVal(g, env, t.y), LitVal(g, env, t.z))
  {
    var g5 := Fanin(g.objs[g6], s);
    ReportLitVals(g, env, g6, s);
    CompGateSemantics(g, env, g5, h);
    AndEval(g, env, g5, S0);
    AndEval(g, env, g6, s);
    var a := EdgeVal(g, env, g6, s.Other());
    var b := EdgeVal(g, env, g5, S0);
    var c := EdgeVal(g, env, g5, S1);
    assert EdgeVal(g, env, g6, s) == !Eval(g, env, g5);
    PatternIsMaj(Eval(g, env, g6), Eval(g, env, g5), Eval(g, env, h), a, b, c);
  }

  /**
    Soundness of Lsv_isMajGate: when it reports `id = MAJ(x, y, z)` with
    three nonzero literals, then under every input assignment node `id`
    evaluates to the majority of those literals.
   */
  lemma MajGateSound(g: Network, env: nat -> bool, id: nat)
    requires Wf(g) && id < |g.objs| && MajGate(g, id).Some?
    requires var t := MajGate(g, id).value; t.x != 0 && t.y != 0 && t.z != 0
    ensures var t := MajGate(g, id).value;
            IsSignal(g, id) &&
            Eval(g, env, id) == Maj(LitVal(g, env, t.x), LitVal(g, env, t.y), LitVal(g, env, t.z))
  {
    var n := g.objs[id];
    var fanin0, fanin1 := g.objs[n.f0], g.objs[n.f1];
    assert Eval(g, env, id) == (!Eval(g, env, n.f0) && !Eval(g, env, n.f1));
    if IsCompGate(g.objs[fanin0.f0], fanin1) {
      ReportSound(g, env, id, n.f0, S0, n.f1);
    } else if IsCompGate(g.objs[fanin0.f1], fanin1) {
      ReportSound(g, env, id, n.f0, S1, n.f1);
    } else if IsCompGate(g.objs[fanin1.f0], fanin0) {
      ReportSound(g, env, id, n.f1, S0, n.f0);
    } else {
      ReportSound(g, env, id, n.f1, S1, n.f0);
    }
  }

  /**
    In a network whose AND nodes never read id 0 (the constant node), a
    reported triple is either all zero, exactly when the matched pattern's
    inner edge is not complemented, or names three literals.
   */
  lemma ReportZeroOrLiterals(g: Network, id: nat)
    requires Wf(g) && id < |g.objs| && MajGate(g, id).Some?
    requires forall i | 0 <= i < |g.objs| && g.objs[i].And? :: g.objs[i].f0 > 0 && g.objs[i].f1 > 0
    ensures var t := MajGate(g, id).value;
            t == Triple(0, 0, 0) || (t.x != 0 && t.y != 0 && t.z != 0)
  {
    var n := g.objs[id];
    assert g.objs[n.f0].And? && g.objs[n.f1].And?;
  }

  /**
    A network in which the first pattern matches at node 7 but the edge from
    g6 to g5 is not complemented. Ids: 1, 2, 3 are inputs b, c, a; 4 is
    g5 = b AND c; 5 is (NOT b) AND (NOT c); 6 is g6 = g5 AND a; 7 is
    (NOT g6) AND (NOT 5).
   */
  function UncheckedExample(): Network {
    Network([Const, Pi, Pi, Pi,
             And(1, false, 2, false),
             And(1, true, 2, true),
             And(4, false, 3, false),
             And(6, true, 5, true)], [])
  }

  lemma UncheckedExampleIsWf()
    ensures Wf(UncheckedExample())
  {
    var g := UncheckedExample();
    forall i | 0 <= i < |g.objs| && g.objs[i].And?
      ensures g.objs[i].f0 < i && !g.objs[g.objs[i].f0].Po?
      ensures g.objs[i].f1 < i && !g.objs[g.objs[i].f1].Po?
    {
      assert 4 <= i;
    }
  }

  /**
    Lsv_isMajGate still accepts node 7 of that network, with the all-zero
    triple, although node 7 is not the majority of NOT a, b and c.
   */
  lemma UncheckedMatchIsAccepted()
    ensures Wf(UncheckedExample())
    ensures MajGate(UncheckedExample(), 7) == Some(Triple(0, 0, 0))
  {
    UncheckedExampleIsWf();
    var g := UncheckedExample();
    assert g.objs[7] == And(6, true, 5, true);
    assert g.objs[6] == And(4, false, 3, false);
    assert IsCompGate(g.objs[4], g.objs[5]);
  }

  /** With a = b = 1 and c = 0, node 7 of that network is 1 while MAJ(NOT a, b, c) is 0. */
  lemma UncheckedMatchIsNotMaj()
    ensures Wf(UncheckedExample())
    ensures var env := (i: nat) => i == 1 || i == 3;
            Eval(UncheckedExample(), env, 7) && !Maj(!env(3), env(1), env(2))
  {
    UncheckedExampleIsWf();
    var g := UncheckedExample();
    var env := (i: nat) => i == 1 || i == 3;
    assert Eval(g, env, 4) == false;
    assert Eval(g, env, 5) == false;
    assert Eval(g, env, 6) == false;
  }

  /**
    A MAJ-3 network: ids 1, 2, 3 are inputs b, c, a; 4 is g5 = b AND c; 5 is
    (NOT b) AND (NOT c); 6 is g6 = (NOT g5) AND a; 7 is (NOT g6) AND (NOT 5),
    which is MAJ(NOT a, b, c); 8 is a primary output driven by 7.
   */
  function MajExample(): Network {
    Network([Const, Pi, Pi, Pi,
             And(1, false, 2, false),
             And(1, true, 2, true),
             And(4, true, 3, false),
             And(6, true, 5, true),
             Po(7, false)], [8])
  }

  lemma MajExampleIsWf()
    ensures Wf(MajExample())
  {
    var g := MajExample();
    forall i | 0 <= i < |g.objs| && g.objs[i].And?
      ensures g.objs[i].f0 < i && !g.objs[g.objs[i].f0].Po?
      ensures g.objs[i].f1 < i && !g.objs[g.objs[i].f1].Po?
    {
      assert 4 <= i <= 7;
    }
  }

  /** Lsv_isMajGate accepts node 7 of that network and prints `7 = MAJ(-3, 1, 2)`. */
  lemma MajExampleReport()
    ensures Wf(MajExample())
    ensures MajGate(MajExample(), 7) == Some(Triple(-3, 1, 2))
  {
    MajExampleIsWf();
    var g := MajExample();
    assert g.objs[7] == And(6, true, 5, true);
    assert g.objs[6] == And(4, true, 3, false);
    assert IsCompGate(g.objs[4], g.objs[5]);
  }

  /** Through MajGateSound, node 7 of that network is MAJ(NOT a, b, c) under every assignment. */
  lemma MajExampleIsMaj(env: nat -> bool)
    ensures Wf(MajExample())
    ensures Eval(MajExample(), env, 7) == Maj(!env(3), env(1), env(2))
  {
    MajExampleReport();
    var g := MajExample();
    MajGateSound(g, env, 7);
    assert LitVal(g, env, -3) == !Eval(g, env, 3);
  }

  /** Lsv_NtkMajFind on that network prints a total of 1: node 7 is its only match. */
  lemma MajExampleCount()
    ensures Wf(MajExample())
    ensures MajAndIds(MajExample()) == {7}
    ensures MajCount(MajExample()) == 1
  {
    MajExampleReport();
    var g := MajExample();
    forall i: nat | i < |g.objs| && i != 7 ensures !IsMajAnd(g, i) {
      if g.objs[i].And? {
        assert 4 <= i <= 6;
        assert !MajShape(g, i);
      }
    }
    MajCountMeaning(g);
  }
}
