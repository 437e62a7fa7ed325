/** Lines of dependencies written out and read back. */
module DpkgLines {
  import opened Options
  import opened Strings
  import opened DpkgVersion
  import opened DpkgTables
  import opened DpkgEdges

  /** An alternative: a name, or a name with an operator and a version. */
  datatype Alt = Name(name: string) | Versioned(name: string, ops: string, version: string)

  predicate ValidAlt(a: Alt)
  {
    && Plain(a.name, {' ', '(', ',', '|'})
    && (a.Versioned? ==>
          && a.ops != [] && (forall i :: 0 <= i < |a.ops| ==> a.ops[i] in {'<', '=', '>'})
          && Plain(a.version, {' ', ')', ',', '|'}) && a.version[0] !in {'<', '=', '>'})
  }

  function PrintAlt(a: Alt): (s: string)
  {
    match a
    case Name(n) => n
    case Versioned(n, ops, v) => n + (" (" + (ops + (" " + (v + ")"))))
  }

  /** Alternatives with bars between them. */
  function PrintGroup(alts: seq<Alt>): (s: string)
    requires alts != []
  {
    var n := |alts| - 1;
    if n == 0 then PrintAlt(alts[0]) else PrintGroup(alts[..n]) + " | " + PrintAlt(alts[n])
  }

  /** Groups with commas between them. */
  function PrintLine(groups: seq<seq<Alt>>): (s: string)
    requires groups != [] && forall i :: 0 <= i < |groups| ==> groups[i] != []
  {
    var n := |groups| - 1;
    if n == 0 then PrintGroup(groups[0]) else PrintLine(groups[..n]) + ", " + PrintGroup(groups[n])
  }

  /** What an alternative means; nothing if its operator is none. */
  function Meaning(a: Alt): (p: Option<Parsed>)
  {
    match a
    case Name(n) => Some(Parsed(n, "ANY", Any))
    case Versioned(n, ops, v) => match OperatorOf(ops, Any) case None => None case Some(op) => Some(Parsed(n, v, op))
  }

  function MeantEdge(a: Alt, intern: string -> nat, kind: nat): (e: Edge)
  {
    match Meaning(a)
    case None => Edge(kind, 0, 0, NoOperator)
    case Some(p) => Edge(kind, intern(p.name), intern(p.version), p.op)
  }

  /** One edge for each alternative, behind an or-edge that counts them if there is a choice. */
  function MeantGroup(alts: seq<Alt>, intern: string -> nat, kind: nat): (e: seq<Edge>)
    requires alts != []
  {
    var edges := seq(|alts|, i requires 0 <= i < |alts| => MeantEdge(alts[i], intern, kind));
    if |alts| > 1 && (kind == EDGE_DEPENDS || kind == EDGE_PRE_DEPENDS) then
      [Edge(kind + 1, intern(PrintGroup(alts)), |alts|, NoOperator)] + edges
    else edges
  }

  function MeantEdges(groups: seq<seq<Alt>>, intern: string -> nat, kind: nat): (e: seq<Edge>)
    requires forall i :: 0 <= i < |groups| ==> groups[i] != []
  {
    if groups == [] then []
    else MeantEdges(groups[..|groups| - 1], intern, kind) + MeantGroup(groups[|groups| - 1], intern, kind)
  }

  predicate ValidGroup(alts: seq<Alt>)
  {
    alts != [] && forall i :: 0 <= i < |alts| ==> ValidAlt(alts[i])
  }

  predicate ValidGroups(groups: seq<seq<Alt>>)
  {
    forall i :: 0 <= i < |groups| ==> groups[i] != [] && ValidGroup(groups[i])
  }

  // ---- one alternative ----

  lemma AltShape(a: Alt)
    requires ValidAlt(a)
    ensures PrintAlt(a) != [] && PrintAlt(a)[0] != ' ' && ',' !in PrintAlt(a) && '|' !in PrintAlt(a)
  {
  }

  /** A printed alternative is read as it was meant, with a space in front or behind as well. */
  lemma AltRead(a: Alt, alt: string, tail: string, unset: string -> Operator)
    requires ValidAlt(a) && (tail == "" || tail == " ") && (alt == PrintAlt(a) + tail || alt == " " + (PrintAlt(a) + tail))
    ensures ParseAlternative(alt, unset) == Meaning(a)
  {
    hide ParseAlternative, OperatorOf, SkipSpaces;
    AltShape(a);
    var f := PrintAlt(a) + tail;
    FirstPlain(f);
    OneSpace(f);
    match a
    case Name(n) => NameRead(alt, n, tail, unset);
    case Versioned(n, ops, v) =>
      assert f == n + (" (" + (ops + (" " + (v + (")" + tail)))));
      AlternativeRead(alt, n, ops, v, tail, unset);
  }

  // ---- one group ----

  /** The tokens of a printed group with something behind it. */
  function GroupTokens(alts: seq<Alt>, tail: string): (t: seq<string>)
    requires alts != []
    ensures |t| == |alts|
  {
    var n := |alts| - 1;
    if n == 0 then [PrintAlt(alts[0]) + tail] else GroupTokens(alts[..n], " ") + [" " + (PrintAlt(alts[n]) + tail)]
  }

  lemma {:induction false} GroupShape(alts: seq<Alt>)
    requires ValidGroup(alts)
    ensures PrintGroup(alts) != [] && PrintGroup(alts)[0] != ' ' && ',' !in PrintGroup(alts)
  {
    var n := |alts| - 1;
    hide ValidAlt, PrintAlt;
    AltShape(alts[n]);
    if n > 0 {
      GroupShape(alts[..n]);
    }
  }

  lemma {:induction false} GroupSplits(alts: seq<Alt>, tail: string)
    requires ValidGroup(alts) && (tail == "" || tail == " ")
    ensures Tokens(PrintGroup(alts) + tail, '|') == GroupTokens(alts, tail)
  {
    hide Tokens, ValidAlt, PrintAlt;
    var n := |alts| - 1;
    AltShape(alts[n]);
    if n == 0 {
      TokensOne(PrintAlt(alts[0]) + tail, '|');
    } else {
      GroupSplits(alts[..n], " ");
      var front, last := PrintGroup(alts[..n]) + " ", " " + (PrintAlt(alts[n]) + tail);
      assert PrintGroup(alts) + tail == front + ['|'] + last;
      TokensSplit(front, last, '|');
      TokensOne(last, '|');
    }
  }

  lemma {:induction false} TokensRead(alts: seq<Alt>, tail: string, unset: string -> Operator, i: nat)
    requires ValidGroup(alts) && (tail == "" || tail == " ") && i < |alts|
    ensures ParseAlternative(GroupTokens(alts, tail)[i], unset) == Meaning(alts[i])
  {
    hide ParseAlternative, ValidAlt, PrintAlt, Meaning;
    var n := |alts| - 1;
    if i < n {
      TokensRead(alts[..n], " ", unset, i);
    } else {
      AltRead(alts[n], GroupTokens(alts, tail)[n], tail, unset);
    }
  }

  /** A printed group gives the edges it means. */
  lemma GroupRead(alts: seq<Alt>, unset: string -> Operator, intern: string -> nat, kind: nat)
    requires ValidGroup(alts)
    ensures var field := PrintGroup(alts);
            && Tokens(field, '|') != [] && Group(field, unset, intern, kind) == MeantGroup(alts, intern, kind)
            && (GroupLegal(field, unset) <==> forall i :: 0 <= i < |alts| ==> Meaning(alts[i]).Some?)
  {
    hide Tokens, ParseAlternative, ValidAlt, PrintAlt, Meaning;
    var field := PrintGroup(alts);
    GroupSplits(alts, "");
    assert field + "" == field;
    var ts := GroupTokens(alts, "");
    forall i | 0 <= i < |alts| ensures ParseAlternative(ts[i], unset) == Meaning(alts[i]) {
      TokensRead(alts, "", unset, i);
    }
    if ts[0] == field {
      OnlyToken(field, '|');
    }
    if |alts| == 1 {
      assert ts[0] == PrintAlt(alts[0]) + "" == field;
    }
    assert AltEdges(ts, unset, intern, kind, |ts|) == seq(|alts|, i requires 0 <= i < |alts| => MeantEdge(alts[i], intern, kind));
  }

  // ---- a line ----

  lemma {:induction false} LineSplits(groups: seq<seq<Alt>>)
    requires groups != [] && ValidGroups(groups)
    ensures var fields := Tokens(PrintLine(groups), ',');
            |fields| == |groups| && forall i :: 0 <= i < |groups| ==> SkipSpaces(fields[i]) == PrintGroup(groups[i])
  {
    hide Tokens, ValidGroup, PrintGroup, SkipSpaces;
    var n := |groups| - 1;
    var g := PrintGroup(groups[n]);
    GroupShape(groups[n]);
    FirstPlain(g);
    OneSpace(g);
    if n == 0 {
      TokensOne(g, ',');
    } else {
      var front := PrintLine(groups[..n]);
      LineSplits(groups[..n]);
      assert PrintLine(groups) == front + [','] + (" " + g);
      TokensSplit(front, " " + g, ',');
      TokensOne(" " + g, ',');
      var fields := Tokens(front, ',') + [" " + g];
      forall i | 0 <= i < |groups| ensures SkipSpaces(fields[i]) == PrintGroup(groups[i]) {
        if i < n {
          assert groups[..n][i] == groups[i];
        }
      }
    }
  }

  /** A line written out is read as it was meant: one edge for each alternative, in order, and an or-edge for each choice;
      it is legal exactly when every operator in it is. */
  lemma {:induction false} LineRead(groups: seq<seq<Alt>>, unset: string -> Operator, intern: string -> nat, kind: nat)
    requires groups != [] && ValidGroups(groups)
    ensures var fields := Tokens(PrintLine(groups), ',');
            && NoFieldEmpty(fields) && fields != [] && Groups(fields, unset, intern, kind) == MeantEdges(groups, intern, kind)
            && (LineLegal(fields, unset) <==> forall i, j :: 0 <= i < |groups| && 0 <= j < |groups[i]| ==> Meaning(groups[i][j]).Some?)
  {
    hide Tokens, ValidGroup, PrintGroup, SkipSpaces, Group, MeantGroup, GroupLegal, PrintLine, Meaning;
    var fields := Tokens(PrintLine(groups), ',');
    LineSplits(groups);
    forall i | 0 <= i < |groups|
      ensures Tokens(SkipSpaces(fields[i]), '|') != [] && groups[i] != []
      ensures Group(SkipSpaces(fields[i]), unset, intern, kind) == MeantGroup(groups[i], intern, kind)
      ensures GroupLegal(SkipSpaces(fields[i]), unset) <==> forall j :: 0 <= j < |groups[i]| ==> Meaning(groups[i][j]).Some?
    {
      GroupRead(groups[i], unset, intern, kind);
    }
    GroupsMeant(fields, groups, unset, intern, kind, |groups|);
    assert fields[..|groups|] == fields && groups[..|groups|] == groups;
  }

  lemma {:induction false} GroupsMeant(fields: seq<string>, groups: seq<seq<Alt>>, unset: string -> Operator, intern: string -> nat, kind: nat, n: nat)
    requires n <= |fields| == |groups| && NoFieldEmpty(fields) && forall i :: 0 <= i < |groups| ==> groups[i] != []
    requires forall i :: 0 <= i < |groups| ==> Group(SkipSpaces(fields[i]), unset, intern, kind) == MeantGroup(groups[i], intern, kind)
    ensures NoFieldEmpty(fields[..n]) && Groups(fields[..n], unset, intern, kind) == MeantEdges(groups[..n], intern, kind)
  {
    hide Tokens, SkipSpaces, Group, MeantGroup;
    if n > 0 {
      GroupsMeant(fields, groups, unset, intern, kind, n - 1);
      assert fields[..n][..n - 1] == fields[..n - 1] && groups[..n][..n - 1] == groups[..n - 1];
    }
  }
}
