/** The automaton under construction, as `AstAutomaton` and `PatternNfa` grow it. */
module Compiler {
  import opened Patterns
  import opened Automata

  /** A fragment's shape depends on no state but its own, its accepting state excepted. */
  lemma {:induction false} ShapeFrame<S>(p: Pattern<S>, edges: seq<seq<Edge<S>>>, edges': seq<seq<Edge<S>>>, lo: nat)
    requires Shape(p, edges, lo) && lo + Width(p) <= |edges'|
    requires forall q | lo <= q < lo + Width(p) && q != Accept(p, lo) :: edges'[q] == edges[q]
    ensures Shape(p, edges', lo)
    decreases p, 0
  {
    match p
    case Atom(_) =>
    case Seq(parts) => SeqShapeFrame(parts, edges, edges', lo, lo + 1);
    case Alt(parts) => AltShapeFrame(parts, edges, edges', lo + 2, lo + 1);
    case Opt(body) => ShapeFrame(body, edges, edges', lo + 2);
    case Rep(body) => ShapeFrame(body, edges, edges', lo + 2);
  }

  lemma {:induction false} SeqShapeFrame<S>(parts: seq<Pattern<S>>, edges: seq<seq<Edge<S>>>, edges': seq<seq<Edge<S>>>,
                                            tail: nat, lo: nat)
    requires SeqShape(parts, edges, tail, lo) && tail < lo && lo + Widths(parts) <= |edges'|
    requires tail < |edges|
    requires tail != SeqAccept(parts, tail, lo) ==> edges'[tail] == edges[tail]
    requires lo + Widths(parts) <= |edges|
    requires forall q | lo <= q < lo + Widths(parts) && q != SeqAccept(parts, tail, lo) :: edges'[q] == edges[q]
    ensures SeqShape(parts, edges', tail, lo)
    decreases parts, 1
  {
    if parts != [] {
      ShapeFrame(parts[0], edges, edges', lo);
      SeqShapeFrame(parts[1..], edges, edges', Accept(parts[0], lo), lo + Width(parts[0]));
    }
  }

  lemma {:induction false} AltShapeFrame<S>(parts: seq<Pattern<S>>, edges: seq<seq<Edge<S>>>, edges': seq<seq<Edge<S>>>,
                                            lo: nat, accept: nat)
    requires AltShape(parts, edges, lo, accept)
    requires lo + Widths(parts) <= |edges| && lo + Widths(parts) <= |edges'|
    requires forall q | lo <= q < lo + Widths(parts) :: edges'[q] == edges[q]
    ensures AltShape(parts, edges', lo, accept)
    decreases parts, 1
  {
    if parts != [] {
      ShapeFrame(parts[0], edges, edges', lo);
      AltShapeFrame(parts[1..], edges, edges', lo + Width(parts[0]), accept);
    }
  }

  /** Appending one part or branch at the end of an open fragment. */
  lemma {:induction false} SeqShapeSnoc<S>(parts: seq<Pattern<S>>, part: Pattern<S>, edges: seq<seq<Edge<S>>>,
                                           tail: nat, lo: nat)
    requires SeqShape(parts, edges, tail, lo)
    requires SeqAccept(parts, tail, lo) < |edges| && edges[SeqAccept(parts, tail, lo)] == [Epsilon(lo + Widths(parts))]
    requires Shape(part, edges, lo + Widths(parts))
    ensures SeqShape(parts + [part], edges, tail, lo)
    decreases parts
  {
    var all := parts + [part];
    if parts == [] {
      assert all == [part] && all[1..] == [];
    } else {
      SeqShapeSnoc(parts[1..], part, edges, Accept(parts[0], lo), lo + Width(parts[0]));
      assert all[1..] == parts[1..] + [part];
    }
  }

  lemma {:induction false} SeqAcceptSnoc<S>(parts: seq<Pattern<S>>, part: Pattern<S>, tail: nat, lo: nat)
    ensures SeqAccept(parts + [part], tail, lo) == Accept(part, lo + Widths(parts))
    decreases parts
  {
    var all := parts + [part];
    if parts == [] {
      assert all == [part] && all[1..] == [];
    } else {
      SeqAcceptSnoc(parts[1..], part, Accept(parts[0], lo), lo + Width(parts[0]));
      assert all[1..] == parts[1..] + [part] && all[0] == parts[0];
    }
  }

  lemma {:induction false} AltShapeSnoc<S>(parts: seq<Pattern<S>>, part: Pattern<S>, edges: seq<seq<Edge<S>>>, lo: nat,
                                           accept: nat)
    requires AltShape(parts, edges, lo, accept) && Shape(part, edges, lo + Widths(parts))
    requires edges[Accept(part, lo + Widths(parts))] == [Epsilon(accept)]
    ensures AltShape(parts + [part], edges, lo, accept)
    decreases parts
  {
    var all := parts + [part];
    if parts == [] {
      assert all == [part] && all[1..] == [];
    } else {
      AltShapeSnoc(parts[1..], part, edges, lo + Width(parts[0]), accept);
      assert all[1..] == parts[1..] + [part] && all[0] == parts[0];
    }
  }

  lemma {:induction false} WidthsSnoc<S>(parts: seq<Pattern<S>>, part: Pattern<S>)
    ensures Widths(parts + [part]) == Widths(parts) + Width(part)
    decreases parts
  {
    var all := parts + [part];
    if parts == [] {
      assert all == [part] && all[1..] == [];
    } else {
      WidthsSnoc(parts[1..], part);
      assert all[1..] == parts[1..] + [part] && all[0] == parts[0];
    }
  }

  lemma {:induction false} AltStartsSnoc<S>(parts: seq<Pattern<S>>, part: Pattern<S>, lo: nat)
    ensures AltStarts(parts + [part], lo) == AltStarts(parts, lo) + [Epsilon(lo + Widths(parts))]
    decreases parts
  {
    var all := parts + [part];
    if parts == [] {
      assert all == [part] && all[1..] == [];
    } else {
      AltStartsSnoc(parts[1..], part, lo + Width(parts[0]));
      assert all[1..] == parts[1..] + [part] && all[0] == parts[0];
    }
  }

  /** No edge of a fragment leaves its own states. */
  ghost predicate Confined<S>(edges: seq<seq<Edge<S>>>, q: nat, lo: nat, hi: nat)
    requires q < |edges|
  {
    forall e | e in edges[q] :: lo <= e.next < hi
  }

  lemma {:induction false} ShapeConfined<S>(p: Pattern<S>, edges: seq<seq<Edge<S>>>, lo: nat, q: nat)
    requires Shape(p, edges, lo) && lo <= q < lo + Width(p) && q != Accept(p, lo)
    ensures Confined(edges, q, lo, lo + Width(p))
    decreases p, 0
  {
    match p
    case Atom(_) =>
    case Seq(parts) => SeqShapeConfined(parts, edges, lo, lo + 1, q);
    case Alt(parts) =>
      if q == lo {
        AltStartsConfined(parts, lo + 2);
      } else {
        AltShapeConfined(parts, edges, lo + 2, lo + 1, q);
      }
    case Opt(body) => if q > lo && q != Accept(body, lo + 2) { ShapeConfined(body, edges, lo + 2, q); }
    case Rep(body) => if q > lo && q != Accept(body, lo + 2) { ShapeConfined(body, edges, lo + 2, q); }
  }

  lemma {:induction false} CompiledInRange<S>(p: Pattern<S>, edges: seq<seq<Edge<S>>>)
    requires Shape(p, edges, 0) && |edges| == Width(p) && edges[Accept(p, 0)] == []
    ensures InRange(edges)
  {
    forall q, e | 0 <= q < |edges| && e in edges[q] ensures e.next < |edges| {
      ShapeConfined(p, edges, 0, q);
    }
  }

  lemma {:induction false} SeqShapeConfined<S>(parts: seq<Pattern<S>>, edges: seq<seq<Edge<S>>>, tail: nat, lo: nat,
                                               q: nat)
    requires SeqShape(parts, edges, tail, lo) && q < |edges| && tail < lo
    requires q == tail || lo <= q < lo + Widths(parts)
    requires q != SeqAccept(parts, tail, lo)
    ensures Confined(edges, q, lo, lo + Widths(parts))
    decreases parts, 1
  {
    if parts != [] && q != tail {
      var next := lo + Width(parts[0]);
      if q < next && q != Accept(parts[0], lo) {
        ShapeConfined(parts[0], edges, lo, q);
      } else {
        SeqShapeConfined(parts[1..], edges, Accept(parts[0], lo), next, q);
      }
    }
  }

  lemma {:induction false} AltStartsConfined<S>(parts: seq<Pattern<S>>, lo: nat)
    ensures forall e | e in AltStarts(parts, lo) :: lo <= e.next < lo + Widths(parts)
  {
    if parts != [] {
      AltStartsConfined(parts[1..], lo + Width(parts[0]));
    }
  }

  lemma {:induction false} AltShapeConfined<S>(parts: seq<Pattern<S>>, edges: seq<seq<Edge<S>>>, lo: nat, accept: nat,
                                               q: nat)
    requires AltShape(parts, edges, lo, accept) && lo <= q < lo + Widths(parts) <= |edges| && accept < lo
    ensures Confined(edges, q, accept, lo + Widths(parts))
    decreases parts, 1
  {
    var next := lo + Width(parts[0]);
    if q < next {
      if q != Accept(parts[0], lo) {
        ShapeConfined(parts[0], edges, lo, q);
      }
    } else {
      AltShapeConfined(parts[1..], edges, next, accept, q);
    }
  }

  /** `after` is `before` grown by the fragment of `part`, linked behind the open tail. */
  lemma {:induction false} SeqGrow<S>(parts: seq<Pattern<S>>, part: Pattern<S>, before: seq<seq<Edge<S>>>,
                                      grown: seq<seq<Edge<S>>>, after: seq<seq<Edge<S>>>, s: nat)
    requires SeqShape(parts, before, s, s + 1) && |before| == s + 1 + Widths(parts)
    requires |grown| == |before| + Width(part) && forall q | 0 <= q < |before| :: grown[q] == before[q]
    requires Shape(part, grown, |before|) && SeqAccept(parts, s, s + 1) < |before|
    requires before[SeqAccept(parts, s, s + 1)] == []
    requires |after| == |grown| && after[SeqAccept(parts, s, s + 1)] == [Epsilon(|before|)]
    requires forall q | 0 <= q < |grown| && q != SeqAccept(parts, s, s + 1) :: after[q] == grown[q]
    ensures SeqShape(parts + [part], after, s, s + 1)
    ensures Widths(parts + [part]) == Widths(parts) + Width(part)
    ensures SeqAccept(parts + [part], s, s + 1) == Accept(part, |before|)
  {
    SeqKept(parts, part, before, grown, after, s);
    PartKept(parts, part, before, grown, after, s);
    WidthsSnoc(parts, part);
    SeqAcceptSnoc(parts, part, s, s + 1);
    SeqShapeSnoc(parts, part, after, s, s + 1);
  }

  /** Opening the accepting state keeps the parts so far. */
  lemma {:induction false} SeqKept<S>(parts: seq<Pattern<S>>, part: Pattern<S>, before: seq<seq<Edge<S>>>,
                                      grown: seq<seq<Edge<S>>>, after: seq<seq<Edge<S>>>, s: nat)
    requires SeqShape(parts, before, s, s + 1) && |before| == s + 1 + Widths(parts)
    requires |grown| == |before| + Width(part) && forall q | 0 <= q < |before| :: grown[q] == before[q]
    requires |after| == |grown| && SeqAccept(parts, s, s + 1) < |before|
    requires forall q | 0 <= q < |grown| && q != SeqAccept(parts, s, s + 1) :: after[q] == grown[q]
    ensures SeqShape(parts, after, s, s + 1)
  {
    SeqShapeFrame(parts, before, after, s, s + 1);
  }

  /** And it keeps the new part, which lies behind. */
  lemma {:induction false} PartKept<S>(parts: seq<Pattern<S>>, part: Pattern<S>, before: seq<seq<Edge<S>>>,
                                       grown: seq<seq<Edge<S>>>, after: seq<seq<Edge<S>>>, s: nat)
    requires |grown| == |before| + Width(part) && Shape(part, grown, |before|)
    requires |after| == |grown| && SeqAccept(parts, s, s + 1) < |before|
    requires forall q | 0 <= q < |grown| && q != SeqAccept(parts, s, s + 1) :: after[q] == grown[q]
    ensures Shape(part, after, |before|)
  {
    ShapeFrame(part, grown, after, |before|);
  }

  lemma {:induction false} AltGrow<S>(parts: seq<Pattern<S>>, part: Pattern<S>, before: seq<seq<Edge<S>>>,
                                      grown: seq<seq<Edge<S>>>, after: seq<seq<Edge<S>>>, s: nat)
    requires AltShape(parts, before, s + 2, s + 1) && |before| == s + 2 + Widths(parts) &&
             before[s] == AltStarts(parts, s + 2)
    requires |grown| == |before| + Width(part) && forall q | 0 <= q < |before| :: grown[q] == before[q]
    requires Shape(part, grown, |before|)
    requires |after| == |grown| && after[s] == before[s] + [Epsilon(|before|)]
    requires after[Accept(part, |before|)] == [Epsilon(s + 1)]
    requires forall q | 0 <= q < |grown| && q != s && q != Accept(part, |before|) :: after[q] == grown[q]
    ensures AltShape(parts + [part], after, s + 2, s + 1) && after[s] == AltStarts(parts + [part], s + 2)
    ensures Widths(parts + [part]) == Widths(parts) + Width(part)
  {
    ShapeFrame(part, grown, after, |before|);
    AltShapeFrame(parts, before, after, s + 2, s + 1);
    WidthsSnoc(parts, part);
    AltStartsSnoc(parts, part, s + 2);
    AltShapeSnoc(parts, part, after, s + 2, s + 1);
  }

  class Automaton<S> {
    var edges: seq<seq<Edge<S>>>
    var start: nat
    var accept: nat

    /** A compiled automaton: the fragment of `p`, and no other state. */
    ghost predicate Compiled(p: Pattern<S>)
      reads this
    {
      && start == 0 && accept == Accept(p, 0) && |edges| == Width(p)
      && Shape(p, edges, 0) && edges[accept] == []
    }

    constructor (p: Pattern<S>)
      ensures Compiled(p)
    {
      edges, start, accept := [], 0, 0;
      new;
      var s, a := Fragment(p);
      start, accept := s, a;
    }

    method State() returns (state: nat)
      modifies this`edges
      ensures state == old(|edges|) && edges == old(edges) + [[]]
    {
      state := |edges|;
      edges := edges + [[]];
    }

    method Push(from: nat, edge: Edge<S>)
      requires from < |edges|
      modifies this`edges
      ensures edges == old(edges)[from := old(edges)[from] + [edge]]
    {
      edges := edges[from := edges[from] + [edge]];
    }

    /** Appends the fragment of `p`; every state already there keeps its edges. */
    method Fragment(p: Pattern<S>) returns (s: nat, a: nat)
      modifies this`edges
      ensures s == old(|edges|) && a == Accept(p, s) && |edges| == s + Width(p)
      ensures forall q | 0 <= q < s :: edges[q] == old(edges)[q]
      ensures Shape(p, edges, s) && edges[a] == []
      decreases p, 1
    {
      match p
      case Atom(symbol) =>
        s := State();
        a := State();
        Push(s, Symbol(symbol, a));
      case Seq(parts) => s, a := SeqFragment(parts);
      case Alt(parts) => s, a := AltFragment(parts);
      case Opt(body) => s, a := OptFragment(body);
      case Rep(body) => s, a := RepFragment(body);
    }

    method OptFragment(body: Pattern<S>) returns (s: nat, a: nat)
      modifies this`edges
      ensures s == old(|edges|) && a == s + 1 && |edges| == s + Width(Opt(body))
      ensures forall q | 0 <= q < s :: edges[q] == old(edges)[q]
      ensures Shape(Opt(body), edges, s) && edges[a] == []
      decreases body, 2
    {
      s := State();
      a := State();
      var inner, end := Fragment(body);
      ghost var before := edges;
      Push(s, Epsilon(a));
      Push(s, Epsilon(inner));
      Push(end, Epsilon(a));
      ShapeFrame(body, before, edges, inner);
    }

    method RepFragment(body: Pattern<S>) returns (s: nat, a: nat)
      modifies this`edges
      ensures s == old(|edges|) && a == s + 1 && |edges| == s + Width(Rep(body))
      ensures forall q | 0 <= q < s :: edges[q] == old(edges)[q]
      ensures Shape(Rep(body), edges, s) && edges[a] == []
      decreases body, 2
    {
      s := State();
      a := State();
      var inner, end := Fragment(body);
      ghost var before := edges;
      Push(s, Epsilon(a));
      Push(s, Epsilon(inner));
      Push(end, Epsilon(inner));
      Push(end, Epsilon(a));
      ShapeFrame(body, before, edges, inner);
    }

    /** The fragment behind the parts built so far, open at its accepting state. */
    ghost predicate Chained(parts: seq<Pattern<S>>, s: nat, a: nat)
      reads this
    {
      && |edges| == s + 1 + Widths(parts) && a == SeqAccept(parts, s, s + 1) < |edges| && edges[a] == []
      && SeqShape(parts, edges, s, s + 1)
    }

    method SeqFragment(parts: seq<Pattern<S>>) returns (s: nat, a: nat)
      modifies this`edges
      ensures s == old(|edges|) && a == SeqAccept(parts, s, s + 1) && |edges| == s + 1 + Widths(parts)
      ensures forall q | 0 <= q < s :: edges[q] == old(edges)[q]
      ensures SeqShape(parts, edges, s, s + 1) && edges[a] == []
      decreases parts, 0
    {
      s := State();
      a := s;
      assert parts[..0] == [];
      for i := 0 to |parts|
        invariant Chained(parts[..i], s, a)
        invariant forall q | 0 <= q < s :: edges[q] == old(edges)[q]
      {
        ghost var before := edges;
        var next, end := Fragment(parts[i]);
        ghost var grown := edges;
        Push(a, Epsilon(next));
        SeqGrow(parts[..i], parts[i], before, grown, edges, s);
        assert parts[..i + 1] == parts[..i] + [parts[i]];
        a := end;
      }
      assert parts[..|parts|] == parts;
    }

    /** The fragment behind the branches built so far. */
    ghost predicate Branches(parts: seq<Pattern<S>>, s: nat)
      reads this
    {
      && |edges| == s + 2 + Widths(parts) && edges[s + 1] == []
      && edges[s] == AltStarts(parts, s + 2) && AltShape(parts, edges, s + 2, s + 1)
    }

    method AltFragment(parts: seq<Pattern<S>>) returns (s: nat, a: nat)
      modifies this`edges
      ensures s == old(|edges|) && a == s + 1 && Branches(parts, s)
      ensures forall q | 0 <= q < s :: edges[q] == old(edges)[q]
      decreases parts, 1
    {
      s := State();
      a := State();
      assert parts[..0] == [];
      for i := 0 to |parts|
        invariant Branches(parts[..i], s)
        invariant forall q | 0 <= q < s :: edges[q] == old(edges)[q]
      {
        assert parts[..i + 1] == parts[..i] + [parts[i]];
        Branch(parts[..i], parts[i], s);
      }
      assert parts[..|parts|] == parts;
    }

    method Branch(ghost parts: seq<Pattern<S>>, part: Pattern<S>, s: nat)
      requires Branches(parts, s)
      modifies this`edges
      ensures Branches(parts + [part], s)
      ensures forall q | 0 <= q < s :: edges[q] == old(edges)[q]
      decreases part, 2
    {
      ghost var before := edges;
      var branch, end := Fragment(part);
      ghost var grown := edges;
      Push(s, Epsilon(branch));
      Push(end, Epsilon(s + 1));
      AltGrow(parts, part, before, grown, edges, s);
    }
  }
}
