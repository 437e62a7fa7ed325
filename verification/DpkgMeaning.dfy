/** What a written line of dependencies demands of the stored packages. */
module DpkgMeaning {
  import opened Options
  import opened Strings
  import opened DpkgVersion
  import opened DpkgOrder
  import opened DpkgTables
  import opened DpkgEdges
  import opened DpkgLines
  import opened DpkgDeps

  /** Some alternative of the group is met. */
  ghost predicate SomeMet(tab: seq<Option<Node>>, versions: nat -> Version, status: nat -> Option<Words>, alts: seq<Alt>, intern: string -> nat, kind: nat)
  {
    exists j :: 0 <= j < |alts| && Met(tab, versions, status, MeantEdge(alts[j], intern, kind))
  }

  lemma {:induction false} AllMetJoin(tab: seq<Option<Node>>, versions: nat -> Version, status: nat -> Option<Words>, a: seq<Edge>, b: seq<Edge>)
    requires WellFormed(a) && WellFormed(b)
    ensures WellFormed(a + b)
    ensures AllMet(tab, versions, status, a + b) <==> AllMet(tab, versions, status, a) && AllMet(tab, versions, status, b)
    decreases |a|
  {
    hide Met, AnyMet;
    WellFormedJoin(a, b);
    if a == [] {
      assert a + b == b;
    } else {
      var n := if IsOr(a[0]) then 1 + a[0].version else 1;
      assert (a + b)[n..] == a[n..] + b && (a + b)[1..n] == a[1..n];
      AllMetJoin(tab, versions, status, a[n..], b);
    }
  }

  /** A group is met when one of its alternatives is. */
  lemma GroupMet(tab: seq<Option<Node>>, versions: nat -> Version, status: nat -> Option<Words>, alts: seq<Alt>, intern: string -> nat, kind: nat)
    requires alts != [] && (kind == EDGE_DEPENDS || kind == EDGE_PRE_DEPENDS)
    ensures WellFormed(MeantGroup(alts, intern, kind))
    ensures AllMet(tab, versions, status, MeantGroup(alts, intern, kind)) <==> SomeMet(tab, versions, status, alts, intern, kind)
  {
    hide Met, Meaning, AllMet, AnyMet, WellFormed;
    var edges := seq(|alts|, i requires 0 <= i < |alts| => MeantEdge(alts[i], intern, kind));
    var g := MeantGroup(alts, intern, kind);
    SameAny(tab, versions, status, alts, intern, kind, edges);
    if |alts| > 1 {
      ChoiceMet(tab, versions, status, g[0], edges);
      assert g == [g[0]] + edges;
    } else {
      assert g == edges == [edges[0]];
      OneMet(tab, versions, status, edges[0]);
    }
  }

  lemma ChoiceMet(tab: seq<Option<Node>>, versions: nat -> Version, status: nat -> Option<Words>, root: Edge, edges: seq<Edge>)
    requires IsOr(root) && edges != [] && root.version == |edges| && AllOfKind(edges, root.kind - 1)
    ensures WellFormed([root] + edges) && (AllMet(tab, versions, status, [root] + edges) <==> AnyMet(tab, versions, status, edges))
  {
    hide Met, AnyMet, AllOfKind;
    var g := [root] + edges;
    ChoiceWellFormed(root, edges);
    assert g[1..1 + |edges|] == edges && g[1 + |edges|..] == [];
  }

  lemma OneMet(tab: seq<Option<Node>>, versions: nat -> Version, status: nat -> Option<Words>, edge: Edge)
    requires IsDep(edge)
    ensures WellFormed([edge])
    ensures AllMet(tab, versions, status, [edge]) <==> Met(tab, versions, status, edge)
    ensures AnyMet(tab, versions, status, [edge]) <==> Met(tab, versions, status, edge)
  {
    hide Met;
    PlainEdges([edge]);
    assert [edge][0] == edge && [edge][1..] == [];
  }

  lemma SameAny(tab: seq<Option<Node>>, versions: nat -> Version, status: nat -> Option<Words>, alts: seq<Alt>, intern: string -> nat, kind: nat, edges: seq<Edge>)
    requires |edges| == |alts| && forall i :: 0 <= i < |alts| ==> edges[i] == MeantEdge(alts[i], intern, kind)
    ensures AnyMet(tab, versions, status, edges) <==> SomeMet(tab, versions, status, alts, intern, kind)
  {
    hide Met, MeantEdge;
  }

  /** A line of dependencies, written out, read, and checked, is met exactly when in each of its groups some alternative is. */
  lemma {:induction false} LineMet(tab: seq<Option<Node>>, versions: nat -> Version, status: nat -> Option<Words>, groups: seq<seq<Alt>>,
                                   unset: string -> Operator, intern: string -> nat, kind: nat)
    requires groups != [] && ValidGroups(groups) && (kind == EDGE_DEPENDS || kind == EDGE_PRE_DEPENDS)
    ensures NoFieldEmpty(Tokens(PrintLine(groups), ','))
    ensures var edges := Groups(Tokens(PrintLine(groups), ','), unset, intern, kind);
            && WellFormed(edges)
            && (AllMet(tab, versions, status, edges) <==> forall i :: 0 <= i < |groups| ==> SomeMet(tab, versions, status, groups[i], intern, kind))
  {
    LineRead(groups, unset, intern, kind);
    hide Tokens, PrintLine, ValidGroup, LineLegal, WellFormed, AllMet;
    EdgesMet(tab, versions, status, groups, intern, kind);
  }

  lemma {:induction false} EdgesMet(tab: seq<Option<Node>>, versions: nat -> Version, status: nat -> Option<Words>, groups: seq<seq<Alt>>, intern: string -> nat, kind: nat)
    requires (kind == EDGE_DEPENDS || kind == EDGE_PRE_DEPENDS) && forall i :: 0 <= i < |groups| ==> groups[i] != []
    ensures WellFormed(MeantEdges(groups, intern, kind))
    ensures AllMet(tab, versions, status, MeantEdges(groups, intern, kind))
       <==> forall i :: 0 <= i < |groups| ==> SomeMet(tab, versions, status, groups[i], intern, kind)
  {
    hide Met, AnyMet, MeantGroup, SomeMet;
    if groups != [] {
      var n := |groups| - 1;
      hide WellFormed, AllMet;
      EdgesMet(tab, versions, status, groups[..n], intern, kind);
      GroupMet(tab, versions, status, groups[n], intern, kind);
      AllMetJoin(tab, versions, status, MeantEdges(groups[..n], intern, kind), MeantGroup(groups[n], intern, kind));
      assert forall i :: 0 <= i < n ==> groups[..n][i] == groups[i];
    }
  }

  /** A stored package satisfies an operator as the numbers do in which its version differs from the wanted one. */
  lemma MatchesByNumber(versions: nat -> Version, node: Node, name: nat, version: nat, op: Operator, e: nat, s: string, m: nat, n: nat, t: string, r: string)
    requires (s == [] || !IsDigit(s[|s| - 1])) && (t == [] || !IsDigit(t[0]))
    requires versions(node.version) == Version(e, s + Decimal(m) + t, r) && versions(version) == Version(e, s + Decimal(n) + t, r)
    ensures Matches(versions, node, name, version, op) <==> node.name == name && Holds(op, m, n)
  {
    hide Cmp, Test;
    OperatorsHold(e, s, m, n, t, r, op);
  }
}
