/** Reading the status file into the tables: fill_package_struct and index_status_file. */
module DpkgStatus {
  import opened Options
  import opened Strings
  import opened Probing
  import opened Factor
  import opened DpkgVersion
  import opened DpkgTables
  import opened DpkgEdges

  /** A field that fill_package_struct knows, or another one. */
  datatype Field = PackageField(value: string) | VersionField(value: string) | Relation(kind: nat, value: string) | OtherField

  /** A stanza of the status file: its fields and its status line. */
  datatype Stanza = Stanza(fields: seq<Field>, status: string)

  /** What strtok needs: no relation is blank. */
  predicate FieldsFit(fields: seq<Field>)
  {
    forall i :: 0 <= i < |fields| && fields[i].Relation? ==> RelationFits(fields[i])
  }

  predicate RelationFits(f: Field)
    requires f.Relation?
  {
    f.kind % 2 == 1 && Tokens(f.value, ',') != [] && NoFieldEmpty(Tokens(f.value, ','))
  }

  predicate FieldLegal(f: Field, unset: string -> Operator)
  {
    f.Relation? ==> LineLegal(Tokens(f.value, ','), unset)
  }

  predicate FieldsLegal(fields: seq<Field>, unset: string -> Operator)
  {
    forall i :: 0 <= i < |fields| ==> FieldLegal(fields[i], unset)
  }

  ghost predicate FieldUses(f: Field, unset: string -> Operator, p: string -> bool)
    requires f.Relation? ==> RelationFits(f)
  {
    match f
    case PackageField(v) => p(v)
    case VersionField(v) => p(v)
    case Relation(kind, v) => LineUses(Tokens(v, ','), unset, kind, p)
    case OtherField => true
  }

  /** Everything in the fields that is looked up in the name table satisfies p. */
  ghost predicate FieldsUse(fields: seq<Field>, unset: string -> Operator, p: string -> bool)
    requires FieldsFit(fields)
  {
    p("unknown") && forall i :: 0 <= i < |fields| ==> FieldUses(fields[i], unset, p)
  }

  /** The name and the version of the package: those of the last such fields. */
  function NameOf(fields: seq<Field>): (s: Option<string>)
  {
    if fields == [] then None
    else
      var f := fields[|fields| - 1];
      if f.PackageField? then Some(f.value) else NameOf(fields[..|fields| - 1])
  }

  function VersionOf(fields: seq<Field>): (s: string)
  {
    if fields == [] then "unknown"
    else
      var f := fields[|fields| - 1];
      if f.VersionField? then f.value else VersionOf(fields[..|fields| - 1])
  }

  function EdgesOf(fields: seq<Field>, unset: string -> Operator, intern: string -> nat): (e: seq<Edge>)
    requires FieldsFit(fields)
  {
    if fields == [] then []
    else
      var rest := EdgesOf(fields[..|fields| - 1], unset, intern);
      var f := fields[|fields| - 1];
      if f.Relation? then rest + Groups(Tokens(f.value, ','), unset, intern, f.kind) else rest
  }

  function NodeOf(fields: seq<Field>, unset: string -> Operator, intern: string -> nat): (n: Node)
    requires FieldsFit(fields)
  {
    Node(if NameOf(fields).Some? then intern(NameOf(fields).value) else 0, intern(VersionOf(fields)), EdgesOf(fields, unset, intern))
  }

  /** Names added later do not change what the fields stand for. */
  lemma {:induction false} FieldsStay(names: seq<Option<string>>, names': seq<Option<string>>, fields: seq<Field>, unset: string -> Operator)
    requires Extends(names, names') && Unique(names') && FieldsFit(fields) && FieldsUse(fields, unset, In(names))
    ensures FieldsUse(fields, unset, In(names')) && NodeOf(fields, unset, Indices(names')) == NodeOf(fields, unset, Indices(names))
    ensures NameOf(fields).Some? ==> InTable(names, NameOf(fields).value)
    ensures InTable(names, VersionOf(fields))
  {
    hide Tokens, LineUses, Groups, Extends, Unique, InTable, NoFieldEmpty, IndexOf;
    if fields == [] {
      IndexStays(names, names', "unknown");
    } else {
      var n := |fields| - 1;
      var f := fields[n];
      assert forall i :: 0 <= i < n ==> fields[..n][i] == fields[i];
      FieldsStay(names, names', fields[..n], unset);
      FieldStays(names, names', f, unset);
      forall i | 0 <= i < |fields| ensures FieldUses(fields[i], unset, In(names')) {
        if i < n {
          assert fields[..n][i] == fields[i];
        }
      }
    }
  }

  lemma FieldStays(names: seq<Option<string>>, names': seq<Option<string>>, f: Field, unset: string -> Operator)
    requires Extends(names, names') && Unique(names') && (f.Relation? ==> RelationFits(f)) && FieldUses(f, unset, In(names))
    ensures FieldUses(f, unset, In(names'))
    ensures f.Relation? ==> Groups(Tokens(f.value, ','), unset, Indices(names'), f.kind) == Groups(Tokens(f.value, ','), unset, Indices(names), f.kind)
    ensures f.PackageField? || f.VersionField? ==> InTable(names, f.value) && IndexOf(names', f.value) == IndexOf(names, f.value)
  {
    hide Tokens, LineUses, Groups, Extends, Unique, InTable, NoFieldEmpty, IndexOf;
    match f
    case PackageField(v) => IndexStays(names, names', v);
    case VersionField(v) => IndexStays(names, names', v);
    case Relation(kind, v) => LineStays(names, names', Tokens(v, ','), unset, kind);
    case OtherField =>
  }

  lemma ReadStart(names: NameTable, fields: seq<Field>, unset: string -> Operator, version: nat)
    requires names.Valid() && version < names.tab.Length && names.tab[version] == Some("unknown")
    ensures FieldsFit(fields[..0]) && FieldsUse(fields[..0], unset, In(names.tab[..]))
    ensures Node(0, version, []) == NodeOf(fields[..0], unset, Indices(names.tab[..]))
  {
    hide Tokens, LineUses, NoFieldEmpty, Prime, Placed;
    NameFound(names, version);
  }

  lemma ReadNext(names: seq<Option<string>>, fields: seq<Field>, unset: string -> Operator, f: nat)
    requires f < |fields| && FieldsFit(fields) && FieldsFit(fields[..f]) && FieldsUse(fields[..f], unset, In(names))
    requires FieldUses(fields[f], unset, In(names))
    ensures FieldsFit(fields[..f + 1]) && FieldsUse(fields[..f + 1], unset, In(names))
    ensures NodeOf(fields[..f + 1], unset, Indices(names)) == NodeWith(NodeOf(fields[..f], unset, Indices(names)), fields[f], unset, Indices(names))
  {
    hide Tokens, LineUses, NoFieldEmpty, Groups, In, Indices;
    assert fields[..f + 1][..f] == fields[..f];
  }

  function NodeWith(n: Node, f: Field, unset: string -> Operator, intern: string -> nat): (n': Node)
    requires f.Relation? ==> RelationFits(f)
  {
    match f
    case PackageField(v) => n.(name := intern(v))
    case VersionField(v) => n.(version := intern(v))
    case Relation(kind, v) => n.(edges := n.edges + Groups(Tokens(v, ','), unset, intern, kind))
    case OtherField => n
  }

  /** One field of a stanza; false is the exit on an illegal operator. */
  method ReadField(names: NameTable, n: Node, f: Field, unset: string -> Operator) returns (ok: bool, n': Node)
    requires names.Valid() && (f.Relation? ==> RelationFits(f)) && FieldUses(f, unset, (s: string) => s in names.all) && WellFormed(n.edges)
    modifies names.tab
    ensures names.Valid() && Extends(old(names.tab[..]), names.tab[..])
    ensures ok == FieldLegal(f, unset)
    ensures ok ==> FieldUses(f, unset, In(names.tab[..])) && n' == NodeWith(n, f, unset, Indices(names.tab[..])) && WellFormed(n'.edges)
  {
    hide Tokens, LineUses, LineLegal, NoFieldEmpty, Groups, IndexOf, InTable, Prime, NamesOk, NamesIn, Extends, WellFormed;
    ok, n' := true, n;
    ExtendsAll(names.tab[..], names.tab[..], names.tab[..]);
    match f
    case PackageField(v) =>
      var name := names.Search(v);
      NameFound(names, name);
      n' := n.(name := name);
    case VersionField(v) =>
      var version := names.Search(v);
      NameFound(names, version);
      n' := n.(version := version);
    case Relation(kind, v) =>
      var edges;
      ok, edges := AddSplitDependencies(names, n.edges, v, unset, kind);
      n' := n.(edges := edges);
    case OtherField =>
  }

  /** The loop of fill_package_struct. */
  method ReadFields(names: NameTable, fields: seq<Field>, unset: string -> Operator) returns (ok: bool, node: Node)
    requires names.Valid() && FieldsFit(fields) && FieldsUse(fields, unset, (s: string) => s in names.all)
    modifies names.tab
    ensures names.Valid() && Extends(old(names.tab[..]), names.tab[..])
    ensures ok == FieldsLegal(fields, unset)
    ensures ok ==> FieldsUse(fields, unset, In(names.tab[..])) && node == NodeOf(fields, unset, Indices(names.tab[..])) && WellFormed(node.edges)
  {
    hide FieldUses, FieldLegal, RelationFits, NodeOf, NodeWith, In, Indices, Prime, NamesOk, NamesIn, Extends, WellFormed, Unique;
    var version := names.Search("unknown");
    node := Node(0, version, []);
    ReadStart(names, fields, unset, version);
    PlainEdges([]);
    var f := 0;
    while f < |fields|
      invariant 0 <= f <= |fields| && names.Valid() && Extends(old(names.tab[..]), names.tab[..]) && WellFormed(node.edges)
      invariant FieldsFit(fields[..f]) && FieldsUse(fields[..f], unset, In(names.tab[..]))
      invariant forall i :: 0 <= i < f ==> FieldLegal(fields[i], unset)
      invariant node == NodeOf(fields[..f], unset, Indices(names.tab[..]))
    {
      ghost var was := names.tab[..];
      ok, node := ReadField(names, node, fields[f], unset);
      ExtendsAll(old(names.tab[..]), was, names.tab[..]);
      if !ok {
        return;
      }
      NamesUnique(names);
      FieldsStay(was, names.tab[..], fields[..f], unset);
      ReadNext(names.tab[..], fields, unset, f);
      f := f + 1;
    }
    assert fields[..f] == fields;
    ok := true;
  }

  /** The tables of packages and of status stay valid when names are added. */
  lemma StillValid(t: Tables, was: seq<Option<string>>)
    requires t.names.Valid() && HashFits(t.hash) && Extends(was, t.names.tab[..]) && Prime(PACKAGE_HASH_PRIME) && Prime(STATUS_HASH_PRIME)
    requires TablesOk(was, t.packages[..], t.statuses[..], t.hash, t.atoi, t.pairs, t.owners)
    ensures t.Valid()
  {
    hide TablesOk, Prime, HashFits, Extends, Placed;
    TablesGrow(was, t.names.tab[..], t.packages[..], t.statuses[..], t.hash, t.atoi, t.pairs, t.owners);
  }

  /** The indices in the package are those of its name and version. */
  lemma NodeNames(names: NameTable, read: seq<Option<string>>, fields: seq<Field>, unset: string -> Operator, node: Node, unknown: nat)
    requires names.Valid() && Extends(read, names.tab[..]) && FieldsFit(fields) && FieldsUse(fields, unset, In(read))
    requires node == NodeOf(fields, unset, Indices(read)) && unknown < names.tab.Length && names.tab[unknown] == Some("unknown")
    ensures node.version == unknown <==> VersionOf(fields) == "unknown"
    ensures FieldsUse(fields, unset, In(names.tab[..])) && node == NodeOf(fields, unset, Indices(names.tab[..]))
    ensures Known(names.tab[..], node.version) && Text(names.tab[..], node.version) == VersionOf(fields)
    ensures NameOf(fields).Some? ==> Known(names.tab[..], node.name) && Text(names.tab[..], node.name) == NameOf(fields).value
  {
    hide FieldsUse, EdgesOf, FieldsFit, Prime, Placed, InTable, IndexOf, Extends;
    FieldsStay(read, names.tab[..], fields, unset);
    IndexStays(read, names.tab[..], VersionOf(fields));
    NameFound(names, unknown);
    if NameOf(fields).Some? {
      IndexStays(read, names.tab[..], NameOf(fields).value);
    }
  }

  datatype Filled = Died | NoVersion | Filled(num: nat)

  /** The name and version of the package are known to the tables, if it has a version. */
  ghost predicate PackageFits(fields: seq<Field>, pairs: set<(string, string)>)
  {
    VersionOf(fields) != "unknown" ==> NameOf(fields).Some? && (NameOf(fields).value, VersionOf(fields)) in pairs
  }

  /** fill_package_struct: a package whose version is known is stored as its fields say, in place of the one of
      equal name and version if there is one. */
  method FillPackage(t: Tables, fields: seq<Field>, unset: string -> Operator) returns (r: Filled)
    requires t.Valid() && FieldsFit(fields) && FieldsUse(fields, unset, (s: string) => s in t.names.all) && PackageFits(fields, t.pairs)
    modifies t.names.tab, t.packages
    ensures t.Valid() && Extends(old(t.names.tab[..]), t.names.tab[..])
    ensures r.Died? <==> !FieldsLegal(fields, unset)
    ensures r.NoVersion? <==> FieldsLegal(fields, unset) && VersionOf(fields) == "unknown"
    ensures !r.Filled? ==> t.packages[..] == old(t.packages[..])
    ensures r.Filled? ==> FieldsUse(fields, unset, In(t.names.tab[..])) && r.num < t.packages.Length
    ensures r.Filled? ==> t.packages[..] == old(t.packages[..])[r.num := Some(NodeOf(fields, unset, Indices(t.names.tab[..])))]
    ensures r.Filled? && old(t.packages[r.num]).Some? ==>
              && Known(t.names.tab[..], old(t.packages[r.num]).value.name)
              && Text(t.names.tab[..], old(t.packages[r.num]).value.name) == NameOf(fields).value
    ensures r.Filled? ==> WellFormed(NodeOf(fields, unset, Indices(t.names.tab[..])).edges)
  {
    hide FieldUses, FieldsLegal, TablesOk, NamesOk, NamesIn, Prime, HashFits, WellFormed, EdgesOf, Indices, In, Extends, FieldsFit, Cmp, Test, Split;
    ghost var was, packages := t.names.tab[..], t.packages[..];
    var ok, node := ReadFields(t.names, fields, unset);
    ghost var read := t.names.tab[..];
    if !ok {
      StillValid(t, was);
      return Died;
    }
    var unknown := t.names.Search("unknown");
    ExtendsAll(was, read, t.names.tab[..]);
    StillValid(t, was);
    NodeNames(t.names, read, fields, unset, node, unknown);
    if node.version == unknown {
      return NoVersion;
    }
    var num := t.Store(node);
    return Filled(num);
  }

  // ---- the whole file ----

  /** What of a stanza the tables must have room for. */
  ghost predicate StanzaFits(z: Stanza, unset: string -> Operator, all: set<string>, pairs: set<(string, string)>, owners: set<string>)
  {
    && FieldsFit(z.fields) && FieldsUse(z.fields, unset, (s: string) => s in all) && PackageFits(z.fields, pairs)
    && (VersionOf(z.fields) != "unknown" ==> NameOf(z.fields).value in owners && z.status in all)
  }

  /** The last stanza of a package; those without a version do not count. */
  function Last(stanzas: seq<Stanza>, name: string): (z: Option<Stanza>)
  {
    if stanzas == [] then None
    else
      var z := stanzas[|stanzas| - 1];
      if VersionOf(z.fields) != "unknown" && NameOf(z.fields) == Some(name) then Some(z) else Last(stanzas[..|stanzas| - 1], name)
  }

  /** The status in slot i, and the package it belongs to, are those of the stanza. */
  ghost predicate IsFrom(names: seq<Option<string>>, packages: seq<Option<Node>>, statuses: seq<Option<Status>>, unset: string -> Operator, i: nat, z: Stanza)
    requires FieldsFit(z.fields)
  {
    && i < |statuses| && statuses[i].Some? && NameOf(z.fields) == Some(Owner(packages, names, statuses[i].value))
    && Known(names, statuses[i].value.words) && Text(names, statuses[i].value.words) == z.status
    && statuses[i].value.package < |packages| && FieldsUse(z.fields, unset, In(names))
    && packages[statuses[i].value.package] == Some(NodeOf(z.fields, unset, Indices(names)))
  }

  /** The tables know about a package what the stanza says, or they know no status of it. */
  ghost predicate Describes(names: seq<Option<string>>, packages: seq<Option<Node>>, statuses: seq<Option<Status>>, unset: string -> Operator, name: string, last: Option<Stanza>)
  {
    match last
    case None => !HasStatus(statuses, packages, names, name)
    case Some(z) => FieldsFit(z.fields) && NameOf(z.fields) == Some(name) && exists i: nat :: IsFrom(names, packages, statuses, unset, i, z)
  }

  /** Every package is described by its last stanza. */
  ghost predicate AllDescribed(names: seq<Option<string>>, packages: seq<Option<Node>>, statuses: seq<Option<Status>>, unset: string -> Operator, stanzas: seq<Stanza>)
  {
    forall name :: Describes(names, packages, statuses, unset, name, Last(stanzas, name))
  }

  /** What a stanza changes: names are added, its package and status are put into their slots. */
  ghost predicate Puts(names: seq<Option<string>>, packages: seq<Option<Node>>, statuses: seq<Option<Status>>,
                       names': seq<Option<string>>, packages': seq<Option<Node>>, statuses': seq<Option<Status>>,
                       unset: string -> Operator, z: Stanza, package: nat, words: nat, num: nat)
    requires FieldsFit(z.fields)
  {
    && Extends(names, names') && Unique(names') && package < |packages| && num < |statuses|
    && packages' == packages[package := Some(NodeOf(z.fields, unset, Indices(names')))]
    && statuses' == statuses[num := Some(Status(package, words))]
    && Known(names', words) && Text(names', words) == z.status && FieldsUse(z.fields, unset, In(names')) && NameOf(z.fields).Some?
    && (packages[package].Some? ==> Text(names', packages[package].value.name) == NameOf(z.fields).value)
    && (statuses[num].Some? ==> Owner(packages', names', statuses[num].value) == NameOf(z.fields).value)
  }

  /** The package of the stanza is then described by it. */
  lemma NowDescribed(names: seq<Option<string>>, packages: seq<Option<Node>>, statuses: seq<Option<Status>>,
                     names': seq<Option<string>>, packages': seq<Option<Node>>, statuses': seq<Option<Status>>,
                     unset: string -> Operator, z: Stanza, package: nat, words: nat, num: nat)
    requires FieldsFit(z.fields) && Puts(names, packages, statuses, names', packages', statuses', unset, z, package, words, num)
    ensures Describes(names', packages', statuses', unset, NameOf(z.fields).value, Some(z))
  {
    hide FieldsFit, FieldsUse, EdgesOf, InTable, IndexOf, Extends, Unique;
    FieldsAt(names', z.fields, unset);
    assert IsFrom(names', packages', statuses', unset, num, z);
  }

  lemma FieldsAt(names: seq<Option<string>>, fields: seq<Field>, unset: string -> Operator)
    requires Unique(names) && FieldsFit(fields) && FieldsUse(fields, unset, In(names)) && NameOf(fields).Some?
    ensures Text(names, NodeOf(fields, unset, Indices(names)).name) == NameOf(fields).value
  {
    hide FieldsUse, EdgesOf, IndexOf;
    ExtendsAll(names, names, names);
    FieldsStay(names, names, fields, unset);
  }

  /** Any other package is described as before. */
  lemma StillDescribed(names: seq<Option<string>>, packages: seq<Option<Node>>, statuses: seq<Option<Status>>,
                       names': seq<Option<string>>, packages': seq<Option<Node>>, statuses': seq<Option<Status>>,
                       unset: string -> Operator, z: Stanza, package: nat, words: nat, num: nat, name: string, last: Option<Stanza>)
    requires FieldsFit(z.fields) && Puts(names, packages, statuses, names', packages', statuses', unset, z, package, words, num)
    requires name != NameOf(z.fields).value && Describes(names, packages, statuses, unset, name, last)
    requires OwnersKnown(names, packages, statuses)
    ensures Describes(names', packages', statuses', unset, name, last)
  {
    hide FieldsFit, FieldsUse, NodeOf;
    FieldsAt(names', z.fields, unset);
    OwnerStays(names, packages, statuses, names', packages', unset, z, package);
    match last
    case None =>
    case Some(y) =>
      var i: nat :| IsFrom(names, packages, statuses, unset, i, y);
      FieldsStay(names, names', y.fields, unset);
      assert IsFrom(names', packages', statuses', unset, i, y);
  }

  ghost predicate OwnersKnown(names: seq<Option<string>>, packages: seq<Option<Node>>, statuses: seq<Option<Status>>)
  {
    forall i :: 0 <= i < |statuses| && statuses[i].Some? ==>
      && statuses[i].value.package < |packages| && packages[statuses[i].value.package].Some?
      && Known(names, packages[statuses[i].value.package].value.name)
  }

  lemma OwnerStays(names: seq<Option<string>>, packages: seq<Option<Node>>, statuses: seq<Option<Status>>, names': seq<Option<string>>,
                   packages': seq<Option<Node>>, unset: string -> Operator, z: Stanza, package: nat)
    requires FieldsFit(z.fields) && Extends(names, names') && Unique(names') && OwnersKnown(names, packages, statuses) && package < |packages|
    requires packages' == packages[package := Some(NodeOf(z.fields, unset, Indices(names')))]
    requires FieldsUse(z.fields, unset, In(names')) && NameOf(z.fields).Some?
    requires packages[package].Some? ==> Text(names', packages[package].value.name) == NameOf(z.fields).value
    ensures forall i :: 0 <= i < |statuses| && statuses[i].Some? ==> Owner(packages', names', statuses[i].value) == Owner(packages, names, statuses[i].value)
    ensures forall i :: 0 <= i < |statuses| && statuses[i].Some? && statuses[i].value.package == package ==>
              Owner(packages, names, statuses[i].value) == NameOf(z.fields).value
  {
    hide FieldsFit, FieldsUse, NodeOf;
    FieldsAt(names', z.fields, unset);
  }

  lemma OwnersAreKnown(t: Tables)
    requires t.Valid()
    ensures OwnersKnown(t.names.tab[..], t.packages[..], t.statuses[..])
  {
    hide Prime, PackagesOk, NodesKnown, StatusOk, OwnersKnown;
    StatusKnown(t.names.tab[..], t.packages[..], t.statuses[..], Hasher(t.hash, STATUS_HASH_PRIME), t.pairs);
  }

  lemma StatusKnown(names: seq<Option<string>>, packages: seq<Option<Node>>, statuses: seq<Option<Status>>, hash: string -> Probe, pairs: set<(string, string)>)
    requires (forall s :: Good(hash(s), |statuses|)) && StatusOk(statuses, packages, names, hash) && NodesKnown(packages, names, pairs)
    ensures OwnersKnown(names, packages, statuses)
  {
    hide Placed, Text, Owner;
  }

  ghost predicate AllWellFormed(packages: seq<Option<Node>>)
  {
    forall i :: 0 <= i < |packages| && packages[i].Some? ==> WellFormed(packages[i].value.edges)
  }

  /** One round of index_status_file. */
  method IndexStanza(t: Tables, z: Stanza, unset: string -> Operator) returns (ok: bool, ghost package: nat, ghost words: nat, ghost num: nat)
    requires t.Valid() && StanzaFits(z, unset, t.names.all, t.pairs, t.owners) && AllWellFormed(t.packages[..])
    modifies t.names.tab, t.packages, t.statuses
    ensures t.Valid() && AllWellFormed(t.packages[..])
    ensures ok == FieldsLegal(z.fields, unset) && Extends(old(t.names.tab[..]), t.names.tab[..])
    ensures ok && VersionOf(z.fields) == "unknown" ==> t.packages[..] == old(t.packages[..]) && t.statuses[..] == old(t.statuses[..])
    ensures ok && VersionOf(z.fields) != "unknown" ==>
              Puts(old(t.names.tab[..]), old(t.packages[..]), old(t.statuses[..]), t.names.tab[..], t.packages[..], t.statuses[..], unset, z, package, words, num)
  {
    hide FieldsUse, FieldsFit, FieldsLegal, TablesOk, NamesOk, NamesIn, Prime, HashFits, WellFormed, EdgesOf, Indices, In, Extends, Unique;
    package, words, num := 0, 0, 0;
    ghost var names0, packages0, statuses0 := t.names.tab[..], t.packages[..], t.statuses[..];
    var r := FillPackage(t, z.fields, unset);
    match r
    case Died => ok := false;
    case NoVersion => ok := true;
    case Filled(p) =>
      ok := true;
      ghost var names1 := t.names.tab[..];
      var w := t.names.Search(z.status);
      ExtendsAll(names0, names1, t.names.tab[..]);
      StillValid(t, names1);
      NamesUnique(t.names);
      FieldsStay(names1, t.names.tab[..], z.fields, unset);
      FieldsAt(t.names.tab[..], z.fields, unset);
      var n := t.SetStatus(p, w);
      package, words, num := p, w, n;
      PackageName(names1, t.names.tab[..], packages0, p);
  }

  lemma PackageName(names: seq<Option<string>>, names': seq<Option<string>>, packages: seq<Option<Node>>, p: nat)
    requires Extends(names, names') && p < |packages|
    ensures packages[p].Some? && Known(names, packages[p].value.name) ==> Text(names', packages[p].value.name) == Text(names, packages[p].value.name)
  {
  }

  lemma NothingDescribed(t: Tables, unset: string -> Operator)
    requires forall i :: 0 <= i < t.statuses.Length ==> t.statuses[i].None?
    ensures AllDescribed(t.names.tab[..], t.packages[..], t.statuses[..], unset, [])
  {
  }

  /** After a stanza every package is described by its last stanza so far. */
  lemma StanzaDescribed(names: seq<Option<string>>, packages: seq<Option<Node>>, statuses: seq<Option<Status>>,
                        names': seq<Option<string>>, packages': seq<Option<Node>>, statuses': seq<Option<Status>>, unset: string -> Operator,
                        stanzas: seq<Stanza>, k: nat, package: nat, words: nat, num: nat, all: set<string>, pairs: set<(string, string)>, owners: set<string>)
    requires k < |stanzas| && StanzaFits(stanzas[k], unset, all, pairs, owners) && OwnersKnown(names, packages, statuses)
    requires Extends(names, names') && Unique(names')
    requires AllDescribed(names, packages, statuses, unset, stanzas[..k])
    requires var z := stanzas[k];
             if VersionOf(z.fields) == "unknown" then packages' == packages && statuses' == statuses
             else Puts(names, packages, statuses, names', packages', statuses', unset, z, package, words, num)
    ensures AllDescribed(names', packages', statuses', unset, stanzas[..k + 1])
  {
    hide FieldsFit, FieldsUse, Describes, Puts, Extends, Unique, VersionOf, NameOf, OwnersKnown;
    var z := stanzas[k];
    assert stanzas[..k + 1][..k] == stanzas[..k];
    var upto := stanzas[..k + 1];
    forall name ensures Describes(names', packages', statuses', unset, name, Last(upto, name)) {
      if VersionOf(z.fields) == "unknown" {
        NamesOnly(names, packages, statuses, names', unset, name, Last(stanzas[..k], name));
      } else if NameOf(z.fields) == Some(name) {
        NowDescribed(names, packages, statuses, names', packages', statuses', unset, z, package, words, num);
      } else {
        StillDescribed(names, packages, statuses, names', packages', statuses', unset, z, package, words, num, name, Last(stanzas[..k], name));
      }
    }
  }

  lemma NamesOnly(names: seq<Option<string>>, packages: seq<Option<Node>>, statuses: seq<Option<Status>>, names': seq<Option<string>>,
                  unset: string -> Operator, name: string, last: Option<Stanza>)
    requires Extends(names, names') && Unique(names') && OwnersKnown(names, packages, statuses) && Describes(names, packages, statuses, unset, name, last)
    ensures Describes(names', packages, statuses, unset, name, last)
  {
    hide FieldsFit, FieldsUse, NodeOf, Unique;
    match last
    case None =>
    case Some(y) =>
      var i: nat :| IsFrom(names, packages, statuses, unset, i, y);
      FieldsStay(names, names', y.fields, unset);
      assert IsFrom(names', packages, statuses, unset, i, y);
  }

  /** index_status_file: afterwards a package has a status exactly when some stanza of it has a version, and its status
      and its fields are those of the last such stanza; or an operator in the file is illegal. */
  method IndexStatusFile(hash: (string, nat) -> Probe, atoi: string -> nat, unset: string -> Operator, stanzas: seq<Stanza>,
                         ghost all: set<string>, ghost pairs: set<(string, string)>, ghost owners: set<string>) returns (ok: bool, t: Tables)
    requires HashFits(hash) && |all| < NAME_HASH_PRIME && |pairs| < PACKAGE_HASH_PRIME && |owners| < STATUS_HASH_PRIME
    requires forall k :: 0 <= k < |stanzas| ==> StanzaFits(stanzas[k], unset, all, pairs, owners)
    ensures t.Valid() && AllWellFormed(t.packages[..])
    ensures ok <==> forall k :: 0 <= k < |stanzas| ==> FieldsLegal(stanzas[k].fields, unset)
    ensures ok ==> AllDescribed(t.names.tab[..], t.packages[..], t.statuses[..], unset, stanzas)
  {
    hide FieldsFit, FieldsUse, FieldsLegal, StanzaFits, TablesOk, NamesOk, NamesIn, Prime, WellFormed, AllDescribed, Puts, Extends, VersionOf, NameOf;
    t := new Tables(hash, atoi, all, pairs, owners);
    NothingDescribed(t, unset);
    var k := 0;
    while k < |stanzas|
      invariant 0 <= k <= |stanzas| && t.Valid() && AllWellFormed(t.packages[..])
      invariant t.names.all == all && t.pairs == pairs && t.owners == owners
      invariant fresh(t.names.tab) && fresh(t.packages) && fresh(t.statuses)
      invariant forall i :: 0 <= i < k ==> FieldsLegal(stanzas[i].fields, unset)
      invariant AllDescribed(t.names.tab[..], t.packages[..], t.statuses[..], unset, stanzas[..k])
    {
      ghost var names0, packages0, statuses0 := t.names.tab[..], t.packages[..], t.statuses[..];
      OwnersAreKnown(t);
      ghost var package, words, num;
      ok, package, words, num := IndexStanza(t, stanzas[k], unset);
      if !ok {
        return;
      }
      NamesUnique(t.names);
      StanzaDescribed(names0, packages0, statuses0, t.names.tab[..], t.packages[..], t.statuses[..], unset, stanzas, k, package, words, num, all, pairs, owners);
      k := k + 1;
    }
    assert stanzas[..k] == stanzas;
    ok := true;
  }
}
