/**
  The part of ABC's AND-inverter graph that the MAJ-3 detector reads: objects
  with their kind, fanin ids and per-edge complement bits, a network as the
  vector of objects indexed by id plus the vector of primary outputs, and the
  two-valued semantics of the graph under an input assignment.
 */
module Aig {

  /** One of the two fanin slots of an AND node. */
  datatype Slot = S0 | S1 {
    function Other(): Slot {
      if this == S0 then S1 else S0
    }
  }

  /**
    An object of a structurally hashed network. `Const` is ABC's constant
    node, which stands for constant 1. An AND node has two fanin edges, each
    with its complement bit; a primary output has one.
   */
  datatype Node =
    | Const
    | Pi
    | And(f0: nat, c0: bool, f1: nat, c1: bool)
    | Po(f: nat, c: bool)

  /** Number of fanins of an object. */
  function FaninNum(n: Node): nat {
    match n
    case Const => 0
    case Pi => 0
    case And(_, _, _, _) => 2
    case Po(_, _) => 1
  }

  /** The id of the fanin in slot `s` of an AND node. */
  function Fanin(n: Node, s: Slot): nat
    requires n.And?
  {
    if s == S0 then n.f0 else n.f1
  }

  /** The complement bit of the edge in slot `s` of an AND node. */
  function FaninC(n: Node, s: Slot): bool
    requires n.And?
  {
    if s == S0 then n.c0 else n.c1
  }

  /**
    The complement bits as ABC stores them on every object: a bit is set only
    when the fanin in that slot was added through a complemented edge, so an
    object without a fanin in a slot reads it as 0. In particular a primary
    output never has its second bit set.
   */
  function ComplBit0(n: Node): bool {
    match n
    case And(_, c0, _, _) => c0
    case Po(_, c) => c
    case _ => false
  }

  function ComplBit1(n: Node): bool {
    match n
    case And(_, _, _, c1) => c1
    case _ => false
  }

  /** A network: `objs[id]` is the object with that id; `pos` lists the ids of the primary outputs in order. */
  datatype Network = Network(objs: seq<Node>, pos: seq<nat>)

  /**
    Well-formedness of a strashed network: an AND node's fanins have smaller
    ids and are not primary outputs (nothing is driven by an output), and
    every entry of `pos` names a primary-output object.
   */
  predicate Wf(g: Network) {
    && (forall i {:trigger g.objs[i].f0} | 0 <= i < |g.objs| && g.objs[i].And? ::
          g.objs[i].f0 < i && !g.objs[g.objs[i].f0].Po?)
    && (forall i {:trigger g.objs[i].f1} | 0 <= i < |g.objs| && g.objs[i].And? ::
          g.objs[i].f1 < i && !g.objs[g.objs[i].f1].Po?)
    && (forall k | 0 <= k < |g.pos| :: g.pos[k] < |g.objs| && g.objs[g.pos[k]].Po?)
  }

  /** An id of the network that is not a primary output, so it has a value. */
  predicate IsSignal(g: Network, id: nat) {
    id < |g.objs| && !g.objs[id].Po?
  }

  /** The value of object `id` when every primary input `i` carries `env(i)`. */
  function Eval(g: Network, env: nat -> bool, id: nat): bool
    requires Wf(g) && IsSignal(g, id)
    decreases id
  {
    match g.objs[id]
    case Const => true
    case Pi => env(id)
    case And(f0, c0, f1, c1) => (Eval(g, env, f0) != c0) && (Eval(g, env, f1) != c1)
  }

  /** The value carried by the edge in slot `s` of the AND node `id`. */
  function EdgeVal(g: Network, env: nat -> bool, id: nat, s: Slot): bool
    requires Wf(g) && id < |g.objs| && g.objs[id].And?
  {
    Eval(g, env, Fanin(g.objs[id], s)) != FaninC(g.objs[id], s)
  }

  /** The three-input majority function. */
  function Maj(a: bool, b: bool, c: bool): bool {
    (a && b) || (a && c) || (b && c)
  }
}
