/** The edges of a package: how add_split_dependencies reads a line of dependencies and lays them out in a flat list. */
module DpkgEdges {
  import opened Options
  import opened Strings
  import opened Probing
  import opened Factor
  import opened DpkgVersion
  import opened DpkgTables

  const EDGE_PRE_DEPENDS := 1
  const EDGE_OR_PRE_DEPENDS := 2
  const EDGE_DEPENDS := 3
  const EDGE_OR_DEPENDS := 4
  const EDGE_PROVIDES := 7

  predicate IsOr(e: Edge) { e.kind == EDGE_OR_PRE_DEPENDS || e.kind == EDGE_OR_DEPENDS }

  predicate IsDep(e: Edge) { e.kind == EDGE_PRE_DEPENDS || e.kind == EDGE_DEPENDS }

  // ---- the layout ----

  predicate AllOfKind(edges: seq<Edge>, kind: int)
  {
    forall i :: 0 <= i < |edges| ==> edges[i].kind == kind
  }

  /** Every or-edge is followed by as many alternatives of its own type as its version field says. */
  predicate WellFormed(edges: seq<Edge>)
    decreases |edges|
  {
    edges == []
    || if IsOr(edges[0]) then
         var n := edges[0].version;
         1 <= n < |edges| && AllOfKind(edges[1..1 + n], edges[0].kind - 1) && WellFormed(edges[1 + n..])
       else WellFormed(edges[1..])
  }

  lemma {:induction false} WellFormedJoin(a: seq<Edge>, b: seq<Edge>)
    requires WellFormed(a) && WellFormed(b)
    ensures WellFormed(a + b)
    decreases |a|
  {
    if a == [] {
      assert a + b == b;
    } else {
      var n := if IsOr(a[0]) then 1 + a[0].version else 1;
      assert (a + b)[n..] == a[n..] + b && (a + b)[1..n] == a[1..n];
      WellFormedJoin(a[n..], b);
    }
  }

  lemma {:induction false} PlainEdges(edges: seq<Edge>)
    requires forall i :: 0 <= i < |edges| ==> !IsOr(edges[i])
    ensures WellFormed(edges)
    decreases |edges|
  {
    if edges != [] {
      PlainEdges(edges[1..]);
    }
  }

  // ---- one alternative ----

  datatype Parsed = Parsed(name: string, version: string, op: Operator)

  /** strncmp looks at the operator characters only, so < stands for << and > for >>. An alternative without any
      leaves the operator as it is in fresh memory. */
  function OperatorOf(ops: string, unset: Operator): (op: Option<Operator>)
  {
    if ops == "" then Some(unset)
    else if ops <= "=" then Some(Equal)
    else if ops <= "<<" then Some(Less)
    else if ops <= "<=" then Some(LessEqual)
    else if ops <= ">>" then Some(More)
    else if ops <= ">=" then Some(MoreEqual)
    else None
  }

  /** The name, and the operator and version in parentheses; nothing if the operator is illegal. */
  function ParseAlternative(alt: string, unset: string -> Operator): (p: Option<Parsed>)
  {
    var f := SkipSpaces(alt);
    var name := f[..Cspn(f, {' ', '('})];
    var open := FindFirst(f, '(');
    if open == |f| then Some(Parsed(name, "ANY", Any))
    else
      var v := f[open + Spn(f[open..], {' ', '('})..];
      var n := Spn(v, {'<', '=', '>'});
      match OperatorOf(v[..n], unset(alt))
      case None => None
      case Some(op) =>
        var w := SkipSpaces(v[n..]);
        Some(Parsed(name, w[..Cspn(w, {' ', ')'})], op))
  }

  /** The operators there are, in the words of section 7.1 of the Debian Policy Manual and the two short ones. */
  predicate IsOperator(ops: string, op: Operator)
  {
    match op
    case Equal => ops == "="
    case Less => ops == "<<" || ops == "<"
    case LessEqual => ops == "<="
    case More => ops == ">>" || ops == ">"
    case MoreEqual => ops == ">="
    case Any => false
    case NoOperator => false
  }

  /** An operator is one of these or illegal. */
  lemma OperatorIs(ops: string, unset: Operator, op: Operator)
    requires ops != []
    ensures OperatorOf(ops, unset) == Some(op) <==> IsOperator(ops, op)
  {
    if OperatorOf(ops, unset).Some? {
      assert |ops| <= 2;
      assert |ops| == 1 ==> ops == [ops[0]];
      assert |ops| == 2 ==> ops == [ops[0], ops[1]];
    }
  }

  predicate Plain(s: string, without: set<char>)
  {
    s != [] && forall i :: 0 <= i < |s| ==> s[i] !in without
  }

  /** An alternative written out as name (operator version), with spaces in front and anything behind, is read as it was
      meant, or not at all if the operator is none. */
  lemma AlternativeRead(alt: string, name: string, ops: string, version: string, tail: string, unset: string -> Operator)
    requires Plain(name, {' ', '('}) && Plain(version, {' ', ')'}) && version[0] !in {'<', '=', '>'}
    requires ops != [] && forall i :: 0 <= i < |ops| ==> ops[i] in {'<', '=', '>'}
    requires SkipSpaces(alt) == name + (" (" + (ops + (" " + (version + (")" + tail)))))
    ensures ParseAlternative(alt, unset) == match OperatorOf(ops, Any) case None => None case Some(op) => Some(Parsed(name, version, op))
  {
    hide ParseAlternative, OperatorOf, Spn, Cspn, FindFirst, SkipSpaces;
    var inner := ops + (" " + (version + (")" + tail)));
    var f := SkipSpaces(alt);
    assert f == name + (" (" + inner) && f == (name + " ") + ("(" + inner);
    CspnIs(name, " (" + inner, {' ', '('});
    FindFirstIs(name + " ", "(" + inner, '(');
    TailRead(ops, version, tail);
    assert f[..|name|] == name && f[|name| + 1..] == "(" + inner && f[|name| + 2..] == inner;
    ParseIs(alt, unset, name, |name| + 1, 1, ops, version, ")" + tail);
  }

  /** The part in parentheses. */
  lemma TailRead(ops: string, version: string, tail: string)
    requires Plain(version, {' ', ')'}) && version[0] !in {'<', '=', '>'}
    requires ops != [] && forall i :: 0 <= i < |ops| ==> ops[i] in {'<', '=', '>'}
    ensures var inner := ops + (" " + (version + (")" + tail)));
            && Spn("(" + inner, {' ', '('}) == 1 && Spn(inner, {'<', '=', '>'}) == |ops| && inner[..|ops|] == ops
            && SkipSpaces(inner[|ops|..]) == version + (")" + tail) && Cspn(version + (")" + tail), {' ', ')'}) == |version|
  {
    hide Spn, Cspn, SkipSpaces;
    var rest := " " + (version + (")" + tail));
    var inner := ops + rest;
    assert rest[0] == ' ' && inner[0] == ops[0];
    SpnIs("(", inner, {' ', '('});
    SpnIs(ops, rest, {'<', '=', '>'});
    assert inner[..|ops|] == ops && inner[|ops|..] == rest;
    OneSpace(version + (")" + tail));
    CspnIs(version, ")" + tail, {' ', ')'});
  }

  lemma ParseIs(alt: string, unset: string -> Operator, name: string, open: nat, skip: nat, ops: string, version: string, close: string)
    requires var f := SkipSpaces(alt);
             && Cspn(f, {' ', '('}) == |name| <= |f| && f[..|name|] == name
             && FindFirst(f, '(') == open < |f| && Spn(f[open..], {' ', '('}) == skip && open + skip <= |f| && ops != []
             && var v := f[open + skip..];
             && Spn(v, {'<', '=', '>'}) == |ops| <= |v| && v[..|ops|] == ops
             && SkipSpaces(v[|ops|..]) == version + close && Cspn(version + close, {' ', ')'}) == |version|
    ensures ParseAlternative(alt, unset) == match OperatorOf(ops, Any) case None => None case Some(op) => Some(Parsed(name, version, op))
  {
    hide Spn, Cspn, FindFirst, SkipSpaces;
    assert (version + close)[..|version|] == version;
    assert OperatorOf(ops, unset(alt)) == OperatorOf(ops, Any);
  }

  /** A name alone, with spaces in front and perhaps behind, is any version of it. */
  lemma NameRead(alt: string, name: string, tail: string, unset: string -> Operator)
    requires Plain(name, {' ', '('}) && (tail == "" || tail == " ") && SkipSpaces(alt) == name + tail
    ensures ParseAlternative(alt, unset) == Some(Parsed(name, "ANY", Any))
  {
    hide SkipSpaces, Cspn, Spn, FindFirst;
    CspnIs(name, tail, {' ', '('});
    var f := SkipSpaces(alt);
    assert '(' !in f;
    assert FindFirst(f, '(') == |f|;
    assert f[..|name|] == name;
  }

  // ---- a line of them ----

  predicate Choice(field: string, kind: nat)
    requires Tokens(field, '|') != []
  {
    (kind == EDGE_DEPENDS || kind == EDGE_PRE_DEPENDS) && field != Tokens(field, '|')[0]
  }

  function AltEdge(alt: string, unset: string -> Operator, intern: string -> nat, kind: nat): (e: Edge)
    ensures e.kind == kind
  {
    match ParseAlternative(alt, unset)
    case None => Edge(kind, 0, 0, NoOperator)
    case Some(p) => Edge(kind, intern(p.name), intern(p.version), p.op)
  }

  /** The edges of the first n alternatives. */
  function AltEdges(alts: seq<string>, unset: string -> Operator, intern: string -> nat, kind: nat, n: nat): (e: seq<Edge>)
    requires n <= |alts|
    ensures |e| == n && AllOfKind(e, kind)
  {
    seq(n, i requires 0 <= i < n => AltEdge(alts[i], unset, intern, kind))
  }

  /** One dependency group. */
  function Group(field: string, unset: string -> Operator, intern: string -> nat, kind: nat): (e: seq<Edge>)
    requires Tokens(field, '|') != []
  {
    var alts := Tokens(field, '|');
    var edges := AltEdges(alts, unset, intern, kind, |alts|);
    if Choice(field, kind) then [Edge(kind + 1, intern(field), |alts|, NoOperator)] + edges else edges
  }

  /** Behind its spaces every field has an alternative. */
  predicate NoFieldEmpty(fields: seq<string>)
  {
    forall i :: 0 <= i < |fields| ==> Tokens(SkipSpaces(fields[i]), '|') != []
  }

  function Groups(fields: seq<string>, unset: string -> Operator, intern: string -> nat, kind: nat): (e: seq<Edge>)
    requires NoFieldEmpty(fields)
  {
    if fields == [] then []
    else Groups(fields[..|fields| - 1], unset, intern, kind) + Group(SkipSpaces(fields[|fields| - 1]), unset, intern, kind)
  }

  /** No alternative has an illegal operator. */
  predicate GroupLegal(field: string, unset: string -> Operator)
  {
    forall i :: 0 <= i < |Tokens(field, '|')| ==> ParseAlternative(Tokens(field, '|')[i], unset).Some?
  }

  predicate LineLegal(fields: seq<string>, unset: string -> Operator)
  {
    forall i :: 0 <= i < |fields| ==> GroupLegal(SkipSpaces(fields[i]), unset)
  }

  /** Everything that is looked up in the name table satisfies p. */
  ghost predicate AltUses(alt: string, unset: string -> Operator, p: string -> bool)
  {
    ParseAlternative(alt, unset).Some? ==> p(ParseAlternative(alt, unset).value.name) && p(ParseAlternative(alt, unset).value.version)
  }

  ghost predicate GroupUses(field: string, unset: string -> Operator, kind: nat, p: string -> bool)
    requires Tokens(field, '|') != []
  {
    (Choice(field, kind) ==> p(field)) && forall i :: 0 <= i < |Tokens(field, '|')| ==> AltUses(Tokens(field, '|')[i], unset, p)
  }

  ghost predicate LineUses(fields: seq<string>, unset: string -> Operator, kind: nat, p: string -> bool)
    requires NoFieldEmpty(fields)
  {
    forall i :: 0 <= i < |fields| ==> GroupUses(SkipSpaces(fields[i]), unset, kind, p)
  }

  // ---- the indices of names ----

  ghost predicate InTable(names: seq<Option<string>>, s: string)
  {
    exists i :: 0 <= i < |names| && names[i] == Some(s)
  }

  ghost function In(names: seq<Option<string>>): (p: string -> bool)
  {
    (s: string) => InTable(names, s)
  }

  ghost function IndexOf(names: seq<Option<string>>, s: string): (i: nat)
    ensures InTable(names, s) ==> i < |names| && names[i] == Some(s)
  {
    if InTable(names, s) then
      var i :| 0 <= i < |names| && names[i] == Some(s);
      i
    else 0
  }

  ghost function Indices(names: seq<Option<string>>): (f: string -> nat)
  {
    (s: string) => IndexOf(names, s)
  }

  /** Adding names does not change the index of any that is there. */
  lemma IndexStays(names: seq<Option<string>>, names': seq<Option<string>>, s: string)
    requires Extends(names, names') && Unique(names') && InTable(names, s)
    ensures InTable(names', s) && IndexOf(names', s) == IndexOf(names, s)
  {
  }

  lemma IndexIs(names: seq<Option<string>>, i: nat)
    requires Unique(names) && i < |names| && names[i].Some?
    ensures InTable(names, names[i].value) && IndexOf(names, names[i].value) == i
  {
  }

  lemma AltStays(names: seq<Option<string>>, names': seq<Option<string>>, alt: string, unset: string -> Operator, kind: nat)
    requires Extends(names, names') && Unique(names') && AltUses(alt, unset, In(names))
    ensures AltUses(alt, unset, In(names')) && AltEdge(alt, unset, Indices(names'), kind) == AltEdge(alt, unset, Indices(names), kind)
  {
    hide ParseAlternative, IndexOf, InTable, Extends, Unique;
    if ParseAlternative(alt, unset).Some? {
      IndexStays(names, names', ParseAlternative(alt, unset).value.name);
      IndexStays(names, names', ParseAlternative(alt, unset).value.version);
    }
  }

  lemma AltsStay(names: seq<Option<string>>, names': seq<Option<string>>, alts: seq<string>, unset: string -> Operator, kind: nat, n: nat)
    requires Extends(names, names') && Unique(names') && n <= |alts| && forall i :: 0 <= i < n ==> AltUses(alts[i], unset, In(names))
    ensures forall i :: 0 <= i < n ==> AltUses(alts[i], unset, In(names'))
    ensures AltEdges(alts, unset, Indices(names'), kind, n) == AltEdges(alts, unset, Indices(names), kind, n)
  {
    hide AltUses, AltEdge, In, Indices, Extends, Unique;
    forall i | 0 <= i < n ensures AltUses(alts[i], unset, In(names')) && AltEdge(alts[i], unset, Indices(names'), kind) == AltEdge(alts[i], unset, Indices(names), kind) {
      AltStays(names, names', alts[i], unset, kind);
    }
  }

  lemma GroupStays(names: seq<Option<string>>, names': seq<Option<string>>, field: string, unset: string -> Operator, kind: nat)
    requires Extends(names, names') && Unique(names') && Tokens(field, '|') != [] && GroupUses(field, unset, kind, In(names))
    ensures GroupUses(field, unset, kind, In(names'))
    ensures Group(field, unset, Indices(names'), kind) == Group(field, unset, Indices(names), kind)
  {
    hide AltUses, AltEdges, Tokens, Extends, Unique, IndexOf, InTable;
    AltsStay(names, names', Tokens(field, '|'), unset, kind, |Tokens(field, '|')|);
    if Choice(field, kind) {
      IndexStays(names, names', field);
    }
  }

  lemma {:induction false} LineStays(names: seq<Option<string>>, names': seq<Option<string>>, fields: seq<string>, unset: string -> Operator, kind: nat)
    requires Extends(names, names') && Unique(names') && NoFieldEmpty(fields) && LineUses(fields, unset, kind, In(names))
    ensures LineUses(fields, unset, kind, In(names'))
    ensures Groups(fields, unset, Indices(names'), kind) == Groups(fields, unset, Indices(names), kind)
  {
    hide GroupUses, Group, Tokens, Extends, Unique, In, Indices, SkipSpaces;
    if fields != [] {
      var n := |fields| - 1;
      LineStays(names, names', fields[..n], unset, kind);
      GroupStays(names, names', SkipSpaces(fields[n]), unset, kind);
      forall i | 0 <= i < |fields| ensures GroupUses(SkipSpaces(fields[i]), unset, kind, In(names')) {
        if i < n {
          assert fields[..n][i] == fields[i];
        }
      }
    }
  }

  // ---- the layout of what is added ----

  /** An or-edge in front of its alternatives. */
  lemma ChoiceWellFormed(root: Edge, edges: seq<Edge>)
    requires IsOr(root) && edges != [] && root.version == |edges| && AllOfKind(edges, root.kind - 1)
    ensures WellFormed([root] + edges)
  {
    var g := [root] + edges;
    assert g[1..1 + |edges|] == edges && g[1 + |edges|..] == [];
  }

  lemma GroupWellFormed(field: string, unset: string -> Operator, intern: string -> nat, kind: nat)
    requires Tokens(field, '|') != [] && kind % 2 == 1
    ensures WellFormed(Group(field, unset, intern, kind))
  {
    hide Tokens, WellFormed, AltEdges;
    var alts := Tokens(field, '|');
    var edges := AltEdges(alts, unset, intern, kind, |alts|);
    if Choice(field, kind) {
      ChoiceWellFormed(Edge(kind + 1, intern(field), |alts|, NoOperator), edges);
    } else {
      PlainEdges(edges);
    }
  }

  /** A dependency that is not marked as a choice is a single edge. */
  lemma SingleAlternative(field: string, unset: string -> Operator, intern: string -> nat, kind: nat)
    requires Tokens(field, '|') != [] && (kind == EDGE_DEPENDS || kind == EDGE_PRE_DEPENDS)
    ensures field == Tokens(field, '|')[0] ==> |Group(field, unset, intern, kind)| == 1
    ensures field != Tokens(field, '|')[0] ==> IsOr(Group(field, unset, intern, kind)[0])
  {
    if field == Tokens(field, '|')[0] {
      OnlyToken(field, '|');
    }
  }

  // ---- reading a line ----

  /** One alternative: its version and name are looked up; false is the exit on an illegal operator. */
  method AddAlternative(names: NameTable, alt: string, unset: string -> Operator, kind: nat) returns (ok: bool, edge: Edge)
    requires names.Valid() && AltUses(alt, unset, (s: string) => s in names.all)
    modifies names.tab
    ensures names.Valid() && Extends(old(names.tab[..]), names.tab[..])
    ensures ok == ParseAlternative(alt, unset).Some?
    ensures ok ==> AltUses(alt, unset, In(names.tab[..])) && edge == AltEdge(alt, unset, Indices(names.tab[..]), kind)
  {
    hide ParseAlternative, Prime, Placed, IndexOf;
    match ParseAlternative(alt, unset)
    case None => return false, Edge(kind, 0, 0, NoOperator);
    case Some(p) =>
      var version := names.Search(p.version);
      var name := names.Search(p.name);
      IndexIs(names.tab[..], version);
      IndexIs(names.tab[..], name);
      return true, Edge(kind, name, version, p.op);
  }

  /** The edges of one field. */
  method AddGroup(names: NameTable, field: string, unset: string -> Operator, kind: nat) returns (ok: bool, group: seq<Edge>)
    requires names.Valid() && Tokens(field, '|') != [] && GroupUses(field, unset, kind, (s: string) => s in names.all)
    modifies names.tab
    ensures names.Valid() && Extends(old(names.tab[..]), names.tab[..])
    ensures ok == GroupLegal(field, unset)
    ensures ok ==> GroupUses(field, unset, kind, In(names.tab[..])) && group == Group(field, unset, Indices(names.tab[..]), kind)
  {
    hide Tokens, ParseAlternative, AltUses, AltEdge, IndexOf, Prime, NamesOk, InTable, Extends, NamesIn;
    var alts := Tokens(field, '|');
    var root := Edge(kind + 1, 0, 0, NoOperator);
    if Choice(field, kind) {
      var name := names.Search(field);
      NameFound(names, name);
      root := Edge(kind + 1, name, 0, NoOperator);
    }
    var edges: seq<Edge> := [];
    var a := 0;
    ExtendsAll(names.tab[..], names.tab[..], names.tab[..]);
    while a < |alts|
      invariant 0 <= a <= |alts| && names.Valid() && Extends(old(names.tab[..]), names.tab[..])
      invariant forall i :: 0 <= i < a ==> ParseAlternative(alts[i], unset).Some? && AltUses(alts[i], unset, In(names.tab[..]))
      invariant edges == AltEdges(alts, unset, Indices(names.tab[..]), kind, a)
      invariant root.kind == kind + 1 && root.version == a && root.op == NoOperator
      invariant Choice(field, kind) ==> InTable(names.tab[..], field) && root.name == IndexOf(names.tab[..], field)
    {
      ghost var was := names.tab[..];
      var edge;
      ok, edge := AddAlternative(names, alts[a], unset, kind);
      ExtendsAll(old(names.tab[..]), was, names.tab[..]);
      if !ok {
        return false, [];
      }
      root := root.(version := root.version + 1);
      edges := edges + [edge];
      NamesUnique(names);
      AltsStay(was, names.tab[..], alts, unset, kind, a);
      if Choice(field, kind) {
        IndexStays(was, names.tab[..], field);
      }
      a := a + 1;
    }
    return true, if Choice(field, kind) then [root] + edges else edges;
  }

  lemma NameFound(names: NameTable, i: nat)
    requires names.Valid() && i < names.tab.Length && names.tab[i].Some?
    ensures InTable(names.tab[..], names.tab[i].value) && IndexOf(names.tab[..], names.tab[i].value) == i
  {
    hide Placed, Prime, IndexOf;
    IndexIs(names.tab[..], i);
  }

  lemma NamesUnique(names: NameTable)
    requires names.Valid()
    ensures Unique(names.tab[..])
  {
  }

  lemma ExtendsAll(a: seq<Option<string>>, b: seq<Option<string>>, c: seq<Option<string>>)
    ensures Extends(a, a) && (Extends(a, b) && Extends(b, c) ==> Extends(a, c))
  {
  }

  lemma LineStart(names: NameTable, fields: seq<string>, unset: string -> Operator, kind: nat)
    requires NoFieldEmpty(fields)
    ensures NoFieldEmpty(fields[..0]) && LineUses(fields[..0], unset, kind, In(names.tab[..]))
    ensures Groups(fields[..0], unset, Indices(names.tab[..]), kind) == []
  {
    hide Tokens, SkipSpaces, GroupUses, Group, In, Indices;
  }

  lemma FieldOf(names: NameTable, fields: seq<string>, f: nat, unset: string -> Operator, kind: nat)
    requires NoFieldEmpty(fields) && f < |fields| && LineUses(fields, unset, kind, (s: string) => s in names.all)
    ensures Tokens(SkipSpaces(fields[f]), '|') != [] && GroupUses(SkipSpaces(fields[f]), unset, kind, (s: string) => s in names.all)
  {
    hide Tokens, SkipSpaces, GroupUses;
  }

  /** One more field of the line. */
  lemma LineNext(names: seq<Option<string>>, fields: seq<string>, f: nat, unset: string -> Operator, kind: nat)
    requires f < |fields| && NoFieldEmpty(fields) && NoFieldEmpty(fields[..f]) && LineUses(fields[..f], unset, kind, In(names))
    requires GroupUses(SkipSpaces(fields[f]), unset, kind, In(names))
    ensures NoFieldEmpty(fields[..f + 1]) && LineUses(fields[..f + 1], unset, kind, In(names))
    ensures Groups(fields[..f + 1], unset, Indices(names), kind)
         == Groups(fields[..f], unset, Indices(names), kind) + Group(SkipSpaces(fields[f]), unset, Indices(names), kind)
  {
    hide Tokens, SkipSpaces, GroupUses, Group, In, Indices;
    assert fields[..f + 1][..f] == fields[..f];
  }

  /** add_split_dependencies: the groups of the line are added and the layout is kept, or an operator is illegal. */
  method AddSplitDependencies(names: NameTable, edges0: seq<Edge>, line: string, unset: string -> Operator, kind: nat) returns (ok: bool, edges: seq<Edge>)
    requires names.Valid() && WellFormed(edges0) && kind % 2 == 1 && Tokens(line, ',') != [] && NoFieldEmpty(Tokens(line, ','))
    requires LineUses(Tokens(line, ','), unset, kind, (s: string) => s in names.all)
    modifies names.tab
    ensures names.Valid() && Extends(old(names.tab[..]), names.tab[..])
    ensures ok == LineLegal(Tokens(line, ','), unset)
    ensures ok ==> WellFormed(edges) && LineUses(Tokens(line, ','), unset, kind, In(names.tab[..]))
    ensures ok ==> edges == edges0 + Groups(Tokens(line, ','), unset, Indices(names.tab[..]), kind)
  {
    hide Tokens, WellFormed, SkipSpaces, GroupUses, GroupLegal, Group, IndexOf, Prime, NamesOk, InTable, Extends, NamesIn, Unique, In, Indices, Groups, LineUses, NoFieldEmpty;
    LineStart(names, Tokens(line, ','), unset, kind);
    edges := edges0;
    var fields, f := Tokens(line, ','), 0;
    assert fields[..0] == [];
    ExtendsAll(names.tab[..], names.tab[..], names.tab[..]);
    while f < |fields|
      invariant 0 <= f <= |fields| && names.Valid() && Extends(old(names.tab[..]), names.tab[..]) && WellFormed(edges)
      invariant NoFieldEmpty(fields[..f]) && NoFieldEmpty(fields) && LineUses(fields[..f], unset, kind, In(names.tab[..]))
      invariant forall i :: 0 <= i < f ==> GroupLegal(SkipSpaces(fields[i]), unset)
      invariant edges == edges0 + Groups(fields[..f], unset, Indices(names.tab[..]), kind)
    {
      var field := SkipSpaces(fields[f]);
      FieldOf(names, fields, f, unset, kind);
      ghost var was := names.tab[..];
      var group;
      ok, group := AddGroup(names, field, unset, kind);
      ExtendsAll(old(names.tab[..]), was, names.tab[..]);
      if !ok {
        return;
      }
      NamesUnique(names);
      LineStays(was, names.tab[..], fields[..f], unset, kind);
      GroupWellFormed(field, unset, Indices(names.tab[..]), kind);
      WellFormedJoin(edges, group);
      LineNext(names.tab[..], fields, f, unset, kind);
      edges := edges + group;
      f := f + 1;
    }
    assert fields[..f] == fields;
    ok := true;
  }
}
