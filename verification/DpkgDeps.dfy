/** The dependency pass of check_deps. */
module DpkgDeps {
  import opened Options
  import opened Strings
  import opened Probing
  import opened Factor
  import opened DpkgVersion
  import opened DpkgTables
  import opened DpkgEdges
  import opened DpkgStatus

  // ---- what a dependency needs ----

  /** What get_status says of a package: whether "install" is wanted, and whether it is "installed". */
  datatype Words = Words(wanted: bool, installed: bool)

  /** get_status: a word of the status line. */
  function Word(s: string, num: nat): (w: string)
    requires num >= 1
    decreases num
  {
    if num == 1 then s[..Cspn(s, {' ', '\n'})]
    else
      var r := s[Cspn(s, {' '})..];
      Word(r[Spn(r, {' '})..], num - 1)
  }

  function WordsOf(line: string): (w: Words)
  {
    Words(Word(line, 1) == "install", Word(line, 3) == "installed")
  }

  predicate IsWord(w: string)
  {
    w != [] && ' ' !in w && '\n' !in w
  }

  predicate IsGap(g: string)
  {
    g != [] && forall i :: 0 <= i < |g| ==> g[i] == ' '
  }

  lemma FirstWord(w: string, rest: string)
    requires IsWord(w) && (rest == [] || rest[0] == ' ' || rest[0] == '\n')
    ensures Word(w + rest, 1) == w
  {
    CspnIs(w, rest, {' ', '\n'});
    assert (w + rest)[..|w|] == w;
  }

  lemma NextWord(w: string, gap: string, rest: string, num: nat)
    requires IsWord(w) && IsGap(gap) && rest != [] && rest[0] != ' ' && num >= 2
    ensures Word(w + (gap + rest), num) == Word(rest, num - 1)
  {
    hide Cspn, Spn;
    var s := w + (gap + rest);
    CspnIs(w, gap + rest, {' '});
    SpnIs(gap, rest, {' '});
    assert s[|w|..] == gap + rest && (gap + rest)[|gap|..] == rest;
  }

  /** A status line of three words, with spaces between them and anything on lines behind, is read as these words. */
  lemma StatusLineRead(want: string, gap1: string, flag: string, gap2: string, state: string, tail: string)
    requires IsWord(want) && IsGap(gap1) && IsWord(flag) && IsGap(gap2) && IsWord(state) && (tail == [] || tail[0] == ' ' || tail[0] == '\n')
    ensures var line := want + (gap1 + (flag + (gap2 + (state + tail))));
            && Word(line, 1) == want && Word(line, 2) == flag && Word(line, 3) == state
            && WordsOf(line) == Words(want == "install", state == "installed")
  {
    hide Word;
    var c := state + tail;
    var b := flag + (gap2 + c);
    FirstWord(want, gap1 + b);
    NextWord(want, gap1, b, 2);
    NextWord(want, gap1, b, 3);
    FirstWord(flag, gap2 + c);
    NextWord(flag, gap2, c, 2);
    FirstWord(state, tail);
  }

  /** The status words of the package with that name, if it has a status. */
  ghost function StatusWords(names: seq<Option<string>>, packages: seq<Option<Node>>, statuses: seq<Option<Status>>, name: string): (w: Option<Words>)
  {
    if i :| 0 <= i < |statuses| && statuses[i].Some? && Owner(packages, names, statuses[i].value) == name then
      Some(WordsOf(Text(names, statuses[i].value.words)))
    else None
  }

  /** The same for the index of a name. */
  ghost function StatusFn(names: seq<Option<string>>, packages: seq<Option<Node>>, statuses: seq<Option<Status>>): (f: nat -> Option<Words>)
  {
    (n: nat) => StatusWords(names, packages, statuses, Text(names, n))
  }

  ghost function StatusIn(t: Tables): (f: nat -> Option<Words>)
    reads t.names.tab, t.packages, t.statuses
  {
    StatusFn(t.names.tab[..], t.packages[..], t.statuses[..])
  }

  /** search_status_hashtable and get_status for a name. */
  method GetStatus(t: Tables, name: nat) returns (w: Option<Words>)
    requires t.Valid()
    ensures w == StatusIn(t)(name)
  {
    hide Prime, PackagesOk, NodesKnown, NamesOk, OwnersIn, Placed, WordsOf;
    var num := t.SearchStatus(Text(t.names.tab[..], name));
    w := if t.statuses[num].None? then None else Some(WordsOf(Text(t.names.tab[..], t.statuses[num].value.words)));
    OneStatus(t.names.tab[..], t.packages[..], t.statuses[..], Hasher(t.hash, STATUS_HASH_PRIME), Text(t.names.tab[..], name), num);
  }

  /** A package has one status at most. */
  lemma OneStatus(names: seq<Option<string>>, packages: seq<Option<Node>>, statuses: seq<Option<Status>>, hash: string -> Probe, name: string, num: nat)
    requires (forall s :: Good(hash(s), |statuses|)) && StatusOk(statuses, packages, names, hash) && num < |statuses|
    requires statuses[num].Some? <==> HasStatus(statuses, packages, names, name)
    requires statuses[num].Some? ==> Owner(packages, names, statuses[num].value) == name
    ensures StatusWords(names, packages, statuses, name) ==
            if statuses[num].None? then None else Some(WordsOf(Text(names, statuses[num].value.words)))
  {
    hide Placed, WordsOf, Owner;
  }

  /** package_satisfies_dependency; a package without a status satisfies nothing. */
  method PackageSatisfies(t: Tables, num: nat, kind: nat) returns (ok: bool)
    requires t.Valid() && num < t.packages.Length && t.packages[num].Some?
    ensures ok == Satisfies(StatusIn(t), t.packages[num].value, kind)
  {
    hide StatusFn, Tables.Valid;
    var w := GetStatus(t, t.packages[num].value.name);
    match w
    case None => return false;
    case Some(w) => return if kind == EDGE_PRE_DEPENDS then w.installed else if kind == EDGE_DEPENDS then w.wanted else false;
  }

  predicate Satisfies(status: nat -> Option<Words>, n: Node, kind: nat)
  {
    match status(n.name)
    case None => false
    case Some(w) => if kind == EDGE_PRE_DEPENDS then w.installed else if kind == EDGE_DEPENDS then w.wanted else false
  }

  ghost predicate Provides(n: Node, name: nat)
  {
    exists j :: 0 <= j < |n.edges| && n.edges[j].kind == EDGE_PROVIDES && n.edges[j].name == name
  }

  /** A stored package that matches, or that provides the name, has the needed status. */
  ghost predicate Met(tab: seq<Option<Node>>, versions: nat -> Version, status: nat -> Option<Words>, e: Edge)
  {
    exists i :: 0 <= i < |tab| && tab[i].Some? && Satisfies(status, tab[i].value, e.kind)
      && (Matches(versions, tab[i].value, e.name, e.version, e.op) || Provides(tab[i].value, e.name))
  }

  ghost predicate AnyMet(tab: seq<Option<Node>>, versions: nat -> Version, status: nat -> Option<Words>, edges: seq<Edge>)
  {
    exists i :: 0 <= i < |edges| && Met(tab, versions, status, edges[i])
  }

  /** Every dependency group has an alternative that is met. */
  ghost predicate AllMet(tab: seq<Option<Node>>, versions: nat -> Version, status: nat -> Option<Words>, edges: seq<Edge>)
    requires WellFormed(edges)
    decreases |edges|
  {
    edges == []
    || if IsOr(edges[0]) then
         var n := edges[0].version;
         AnyMet(tab, versions, status, edges[1..1 + n]) && AllMet(tab, versions, status, edges[1 + n..])
       else (IsDep(edges[0]) ==> Met(tab, versions, status, edges[0])) && AllMet(tab, versions, status, edges[1..])
  }

  /** search_for_provides: the next package after startAt that provides the name, or -1. */
  method SearchForProvides(t: Tables, needle: nat, startAt: int) returns (i: int)
    requires -1 <= startAt < t.packages.Length
    ensures i == -1 || startAt < i < t.packages.Length
    ensures i >= 0 ==> t.packages[i].Some? && Provides(t.packages[i].value, needle)
    ensures forall k :: startAt < k < (if i >= 0 then i else t.packages.Length) && t.packages[k].Some? ==> !Provides(t.packages[k].value, needle)
  {
    i := startAt + 1;
    while i < t.packages.Length
      invariant startAt < i <= t.packages.Length
      invariant forall k :: startAt < k < i && t.packages[k].Some? ==> !Provides(t.packages[k].value, needle)
    {
      if t.packages[i].Some? {
        var n := t.packages[i].value;
        var j := 0;
        while j < |n.edges|
          invariant 0 <= j <= |n.edges|
          invariant forall k :: 0 <= k < j ==> !(n.edges[k].kind == EDGE_PROVIDES && n.edges[k].name == needle)
        {
          if n.edges[j].kind == EDGE_PROVIDES && n.edges[j].name == needle {
            return;
          }
          j := j + 1;
        }
      }
      i := i + 1;
    }
    i := -1;
  }

  /** Whether one dependency is met: the package found first, or else any provider. */
  method CheckEdge(t: Tables, e: Edge) returns (ok: bool)
    requires t.Valid()
    ensures ok == Met(t.packages[..], t.Versions(), StatusIn(t), e)
  {
    hide Tables.Valid, Matches, Provides, Satisfies, StatusFn;
    ghost var tab, status := t.packages[..], StatusIn(t);
    var num := t.SearchPackage(e.name, e.version, e.op);
    ok := false;
    if t.packages[num].Some? {
      ok := PackageSatisfies(t, num, e.kind);
      if ok {
        assert tab[num].Some?;
        return;
      }
    }
    SameNameSameStatus(tab, t.Versions(), status, e, num);
    var provider := -1;
    while true
      invariant -1 <= provider < t.packages.Length && tab == t.packages[..]
      invariant forall i :: 0 <= i <= provider && tab[i].Some? && Provides(tab[i].value, e.name) ==> !Satisfies(status, tab[i].value, e.kind)
      decreases t.packages.Length - provider
    {
      var next := SearchForProvides(t, e.name, provider);
      if next == -1 {
        break;
      }
      provider := next;
      ok := PackageSatisfies(t, provider, e.kind);
      if ok {
        assert tab[provider].Some?;
        return;
      }
    }
  }

  /** If the package found does not have the status, no other match has it: it goes by the name alone. */
  lemma SameNameSameStatus(tab: seq<Option<Node>>, versions: nat -> Version, status: nat -> Option<Words>, e: Edge, num: nat)
    requires num < |tab| && (tab[num].Some? <==> DpkgTables.Stored(tab, versions, e.name, e.version, e.op))
    requires tab[num].Some? ==> Matches(versions, tab[num].value, e.name, e.version, e.op) && !Satisfies(status, tab[num].value, e.kind)
    ensures forall i :: 0 <= i < |tab| && tab[i].Some? && Matches(versions, tab[i].value, e.name, e.version, e.op) ==> !Satisfies(status, tab[i].value, e.kind)
  {
    hide Cmp, Test;
  }

  // ---- the dependency pass ----

  datatype Outcome = Fine | CannotBeSatisfied | Corrupt | IllegalOperator

  /** Where the loop over the edges stands. With number alternatives of `root` to come, none so far being
      met, they decide together with what follows them; otherwise everything before j is met. */
  ghost predicate Progress(tab: seq<Option<Node>>, versions: nat -> Version, status: nat -> Option<Words>,
                           edges: seq<Edge>, j: nat, number: nat, root: Option<Edge>)
    requires WellFormed(edges)
  {
    && j + (if root.Some? then number else 0) <= |edges|
    && if root.Some? && number > 0 then
         && IsOr(root.value) && AllOfKind(edges[j..j + number], root.value.kind - 1) && WellFormed(edges[j + number..])
         && (AllMet(tab, versions, status, edges)
             <==> AnyMet(tab, versions, status, edges[j..j + number]) && AllMet(tab, versions, status, edges[j + number..]))
       else
         && number <= 1 && WellFormed(edges[j..])
         && (AllMet(tab, versions, status, edges) <==> AllMet(tab, versions, status, edges[j..]))
  }

  /** The check of one package's edges in check_deps. */
  method CheckEdges(t: Tables, edges: seq<Edge>) returns (r: Outcome)
    requires t.Valid() && WellFormed(edges)
    ensures r == Fine <==> AllMet(t.packages[..], t.Versions(), StatusIn(t), edges)
    ensures r == Fine || r == CannotBeSatisfied
  {
    hide Tables.Valid, StatusFn, Met, WellFormed, AllMet, AnyMet, Progress, AllOfKind;
    var j, number, root: Option<Edge> := 0, 0, None;
    ghost var tab, status := t.packages[..], StatusIn(t);
    Begin(tab, t.Versions(), status, edges);
    while j < |edges|
      invariant 0 <= j && 0 <= number && tab == t.packages[..] && Progress(tab, t.Versions(), status, edges, j, number, root)
      decreases |edges| - j
    {
      var e := edges[j];
      Facts(tab, t.Versions(), status, edges, j, number, root);
      if IsOr(e) {
        StartChoice(tab, t.Versions(), status, edges, j, number, root);
        number, root := e.version, Some(e);
        j := j + 1;
        continue;
      }
      if number == 0 {
        NotInside(tab, t.Versions(), status, edges, j, number, root);
        number, root := 1, None;
      }
      if IsDep(e) {
        if root.Some? && e.kind != root.value.kind - 1 {
          return Corrupt;
        }
        var met := CheckEdge(t, e);
        OneEdge(tab, t.Versions(), status, edges, j, number, root, met);
        number := number - 1;
        if !met && number == 0 {
          return CannotBeSatisfied;
        }
        if met && number > 0 {
          j := j + number;
          number := 0;
        }
      } else {
        OtherEdge(tab, t.Versions(), status, edges, j, number, root);
      }
      j := j + 1;
    }
    End(tab, t.Versions(), status, edges, j, number, root);
    return Fine;
  }

  lemma Begin(tab: seq<Option<Node>>, versions: nat -> Version, status: nat -> Option<Words>, edges: seq<Edge>)
    requires WellFormed(edges)
    ensures Progress(tab, versions, status, edges, 0, 0, None)
  {
    hide WellFormed, AllMet;
    assert edges[0..] == edges;
  }

  /** Inside a choice stand only alternatives of its type. */
  lemma Facts(tab: seq<Option<Node>>, versions: nat -> Version, status: nat -> Option<Words>, edges: seq<Edge>, j: nat, number: nat, root: Option<Edge>)
    requires WellFormed(edges) && j < |edges| && Progress(tab, versions, status, edges, j, number, root)
    ensures root.Some? && number > 0 ==> IsOr(root.value) && edges[j].kind == root.value.kind - 1 && !IsOr(edges[j]) && IsDep(edges[j])
    ensures root.None? || number == 0 ==> number <= 1
  {
    hide WellFormed, AllMet, AnyMet;
    if root.Some? && number > 0 {
      assert edges[j..j + number][0] == edges[j];
    }
  }

  /** Outside a choice, an edge is its own only alternative. */
  lemma NotInside(tab: seq<Option<Node>>, versions: nat -> Version, status: nat -> Option<Words>, edges: seq<Edge>, j: nat, number: nat, root: Option<Edge>)
    requires WellFormed(edges) && j < |edges| && number == 0 && Progress(tab, versions, status, edges, j, number, root)
    ensures Progress(tab, versions, status, edges, j, 1, None)
  {
    hide WellFormed, AllMet, AnyMet;
  }

  /** What an or-edge in front means. */
  lemma ChoiceAhead(tab: seq<Option<Node>>, versions: nat -> Version, status: nat -> Option<Words>, rest: seq<Edge>)
    requires rest != [] && IsOr(rest[0]) && WellFormed(rest)
    ensures var n := rest[0].version;
            && 1 <= n < |rest| && AllOfKind(rest[1..1 + n], rest[0].kind - 1) && WellFormed(rest[1 + n..])
            && (AllMet(tab, versions, status, rest)
                <==> AnyMet(tab, versions, status, rest[1..1 + n]) && AllMet(tab, versions, status, rest[1 + n..]))
  {
    hide AnyMet;
  }

  lemma StartChoice(tab: seq<Option<Node>>, versions: nat -> Version, status: nat -> Option<Words>, edges: seq<Edge>, j: nat, number: nat, root: Option<Edge>)
    requires WellFormed(edges) && j < |edges| && Progress(tab, versions, status, edges, j, number, root) && IsOr(edges[j])
    ensures Progress(tab, versions, status, edges, j + 1, edges[j].version, Some(edges[j]))
  {
    hide AnyMet, AllMet, WellFormed, AllOfKind;
    Facts(tab, versions, status, edges, j, number, root);
    var rest, n := edges[j..], edges[j].version;
    assert rest[0] == edges[j];
    ChoiceAhead(tab, versions, status, rest);
    assert rest[1..1 + n] == edges[j + 1..j + 1 + n] && rest[1 + n..] == edges[j + 1 + n..];
  }

  /** A dependency, alone or as an alternative: met, the loop goes on behind its group; not met, with
      the next alternative, and if there is none the package's dependencies are not met. */
  lemma OneEdge(tab: seq<Option<Node>>, versions: nat -> Version, status: nat -> Option<Words>, edges: seq<Edge>, j: nat, number: nat, root: Option<Edge>, met: bool)
    requires WellFormed(edges) && j < |edges| && number >= 1 && IsDep(edges[j]) && met == Met(tab, versions, status, edges[j])
    requires Progress(tab, versions, status, edges, j, number, root)
    ensures !met && number == 1 ==> !AllMet(tab, versions, status, edges)
    ensures !met && number > 1 ==> root.Some? && Progress(tab, versions, status, edges, j + 1, number - 1, root)
    ensures met ==> Progress(tab, versions, status, edges, j + number, 0, root)
  {
    hide Met;
    if root.None? {
      assert edges[j..][0] == edges[j] && edges[j..][1..] == edges[j + 1..];
    } else {
      var alts := edges[j..j + number];
      assert alts[0] == edges[j] && alts[1..] == edges[j + 1..j + number];
      AnyOf(tab, versions, status, alts);
      assert AllOfKind(alts[1..], root.value.kind - 1);
      if number == 1 {
        assert alts[1..] == [];
      }
    }
  }

  lemma AnyOf(tab: seq<Option<Node>>, versions: nat -> Version, status: nat -> Option<Words>, alts: seq<Edge>)
    requires alts != []
    ensures AnyMet(tab, versions, status, alts) <==> Met(tab, versions, status, alts[0]) || AnyMet(tab, versions, status, alts[1..])
  {
    hide Met;
    if AnyMet(tab, versions, status, alts) && !Met(tab, versions, status, alts[0]) {
      var i :| 0 <= i < |alts| && Met(tab, versions, status, alts[i]);
      assert alts[1..][i - 1] == alts[i];
    }
    if AnyMet(tab, versions, status, alts[1..]) {
      var i :| 0 <= i < |alts[1..]| && Met(tab, versions, status, alts[1..][i]);
      assert alts[i + 1] == alts[1..][i];
    }
  }

  /** An edge of another type does not matter. */
  lemma OtherEdge(tab: seq<Option<Node>>, versions: nat -> Version, status: nat -> Option<Words>, edges: seq<Edge>, j: nat, number: nat, root: Option<Edge>)
    requires WellFormed(edges) && j < |edges| && !IsOr(edges[j]) && !IsDep(edges[j])
    requires root.None? && Progress(tab, versions, status, edges, j, number, root)
    ensures Progress(tab, versions, status, edges, j + 1, number, root)
  {
    hide Met;
    assert edges[j..][0] == edges[j] && edges[j..][1..] == edges[j + 1..];
  }

  lemma End(tab: seq<Option<Node>>, versions: nat -> Version, status: nat -> Option<Words>, edges: seq<Edge>, j: nat, number: nat, root: Option<Edge>)
    requires WellFormed(edges) && j >= |edges| && Progress(tab, versions, status, edges, j, number, root)
    ensures AllMet(tab, versions, status, edges)
  {
    hide Met;
    assert edges[j..] == [];
  }

  ghost predicate Wanted(status: nat -> Option<Words>, n: Node)
  {
    status(n.name).Some? && status(n.name).value.wanted
  }

  /** The dependency pass of check_deps: it completes exactly when every package that is wanted has all its
      dependency groups met, and never finds the edges corrupt. */
  method CheckDeps(t: Tables) returns (r: Outcome)
    requires t.Valid()
    requires AllWellFormed(t.packages[..])
    ensures r == Fine <==> forall i :: 0 <= i < t.packages.Length && t.packages[i].Some? && Wanted(StatusIn(t), t.packages[i].value) ==>
                             AllMet(t.packages[..], t.Versions(), StatusIn(t), t.packages[i].value.edges)
    ensures r == Fine || r == CannotBeSatisfied
  {
    hide Tables.Valid, StatusFn, WellFormed, AllMet;
    var i := 0;
    while i < t.packages.Length
      invariant 0 <= i <= t.packages.Length
      invariant forall k :: 0 <= k < i && t.packages[k].Some? && Wanted(StatusIn(t), t.packages[k].value) ==>
                  AllMet(t.packages[..], t.Versions(), StatusIn(t), t.packages[k].value.edges)
    {
      if t.packages[i].Some? {
        var w := GetStatus(t, t.packages[i].value.name);
        if w.Some? && w.value.wanted {
          assert WellFormed(t.packages[..][i].value.edges);
          r := CheckEdges(t, t.packages[i].value.edges);
          if r != Fine {
            return;
          }
        }
      }
      i := i + 1;
    }
    return Fine;
  }

  // ---- the whole run ----

  /** What the status file says about a package: the status of its last stanza. */
  function FileStatus(stanzas: seq<Stanza>, name: string): (w: Option<Words>)
  {
    match Last(stanzas, name)
    case None => None
    case Some(z) => Some(WordsOf(z.status))
  }

  lemma StatusFromFile(t: Tables, unset: string -> Operator, stanzas: seq<Stanza>)
    requires t.Valid() && AllDescribed(t.names.tab[..], t.packages[..], t.statuses[..], unset, stanzas)
    ensures forall name :: StatusWords(t.names.tab[..], t.packages[..], t.statuses[..], name) == FileStatus(stanzas, name)
  {
    hide Prime, PackagesOk, NodesKnown, NamesOk, OwnersIn, Placed, WordsOf, FieldsFit, FieldsUse, NodeOf, NameOf, Owner;
    var names, packages, statuses := t.names.tab[..], t.packages[..], t.statuses[..];
    forall name ensures StatusWords(names, packages, statuses, name) == FileStatus(stanzas, name) {
      assert Describes(names, packages, statuses, unset, name, Last(stanzas, name));
      if Last(stanzas, name).Some? {
        var i: nat :| IsFrom(names, packages, statuses, unset, i, Last(stanzas, name).value);
        OneStatus(names, packages, statuses, Hasher(t.hash, STATUS_HASH_PRIME), name, i);
      }
    }
  }

  /** The status file is read and its packages are checked: this completes exactly when no operator is illegal and every
      stored package whose last stanza wants it installed has all its dependency groups met. */
  method CheckStatusFile(hash: (string, nat) -> Probe, atoi: string -> nat, unset: string -> Operator, stanzas: seq<Stanza>,
                         ghost all: set<string>, ghost pairs: set<(string, string)>, ghost owners: set<string>) returns (r: Outcome, t: Tables)
    requires HashFits(hash) && |all| < NAME_HASH_PRIME && |pairs| < PACKAGE_HASH_PRIME && |owners| < STATUS_HASH_PRIME
    requires forall k :: 0 <= k < |stanzas| ==> StanzaFits(stanzas[k], unset, all, pairs, owners)
    ensures AllWellFormed(t.packages[..])
    ensures r != IllegalOperator <==> forall k :: 0 <= k < |stanzas| ==> FieldsLegal(stanzas[k].fields, unset)
    ensures r != IllegalOperator ==> AllDescribed(t.names.tab[..], t.packages[..], t.statuses[..], unset, stanzas)
    ensures r != IllegalOperator ==> forall name :: StatusWords(t.names.tab[..], t.packages[..], t.statuses[..], name) == FileStatus(stanzas, name)
    ensures r == Fine || r == CannotBeSatisfied || r == IllegalOperator
    ensures r != IllegalOperator ==>
              (r == Fine <==> forall i :: 0 <= i < t.packages.Length && t.packages[i].Some? && Wanted(StatusIn(t), t.packages[i].value) ==>
                                AllMet(t.packages[..], t.Versions(), StatusIn(t), t.packages[i].value.edges))
  {
    hide StanzaFits, FieldsLegal, Tables.Valid, AllDescribed, StatusWords, FileStatus, StatusFn, AllMet, WellFormed, HashFits;
    var ok;
    ok, t := IndexStatusFile(hash, atoi, unset, stanzas, all, pairs, owners);
    if !ok {
      return IllegalOperator, t;
    }
    StatusFromFile(t, unset, stanzas);
    r := CheckDeps(t);
  }
}
