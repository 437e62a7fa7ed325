/** The three hash tables of dpkg: names, packages and the status of packages. */
module DpkgTables {
  import opened Options
  import opened Probing
  import opened Factor
  import opened DpkgVersion

  // ---- searching ----

  /** The probe passes over k occupied slots. */
  ghost predicate Passed<T>(tab: seq<Option<T>>, h: Probe, k: nat)
    requires Good(h, |tab|)
  {
    forall j: nat :: j < k ==> tab[Slot(h, |tab|, j)].Some?
  }

  /** Slot i is where the probe comes to after occupied slots only. */
  ghost predicate Placed<T>(tab: seq<Option<T>>, h: Probe, i: nat)
    requires Good(h, |tab|)
  {
    exists k: nat :: k < |tab| && Slot(h, |tab|, k) == i && Passed(tab, h, k)
  }

  ghost predicate Room<T>(tab: seq<Option<T>>)
  {
    exists i :: 0 <= i < |tab| && tab[i].None?
  }

  /** The loop of the three searches: the first slot on the probe that is free or holds what is looked
      for. While a slot is free it comes to an end. */
  method Find<T(0)>(tab: array<Option<T>>, h: Probe, hit: T -> bool) returns (addr: nat, ghost k: nat)
    requires Good(h, tab.Length) && Prime(tab.Length) && Room(tab[..])
    ensures addr < tab.Length && k < tab.Length && addr == Slot(h, tab.Length, k) && Passed(tab[..], h, k)
    ensures forall j: nat :: j < k ==> !hit(tab[Slot(h, tab.Length, j)].value)
    ensures tab[addr].Some? ==> hit(tab[addr].value)
  {
    ghost var free :| 0 <= free < tab.Length && tab[..][free].None?;
    ghost var last := ProbeHits(h, tab.Length, free);
    addr, k := h.start, 0;
    while tab[addr].Some?
      invariant k <= last && addr == Slot(h, tab.Length, k) && Passed(tab[..], h, k)
      invariant forall j: nat :: j < k ==> !hit(tab[Slot(h, tab.Length, j)].value)
      decreases last - k
    {
      if hit(tab[addr].value) {
        return;
      }
      assert k < last;
      addr := if addr >= h.dec then addr - h.dec else addr - h.dec + tab.Length;
      k := k + 1;
    }
  }

  /** Whatever stands behind occupied slots only has been passed when a free slot is reached. */
  lemma PassedAll<T>(tab: seq<Option<T>>, h: Probe, k: nat, i: nat) returns (j: nat)
    requires Good(h, |tab|) && k < |tab| && tab[Slot(h, |tab|, k)].None? && Placed(tab, h, i) && tab[i].Some?
    ensures j < k && Slot(h, |tab|, j) == i
  {
    j :| j < |tab| && Slot(h, |tab|, j) == i && Passed(tab, h, j);
  }

  lemma FoundIsPlaced<T>(tab: seq<Option<T>>, h: Probe, k: nat)
    requires Good(h, |tab|) && k < |tab| && Passed(tab, h, k)
    ensures Placed(tab, h, Slot(h, |tab|, k))
  {
  }

  /** Filling slots keeps everything in its place. */
  lemma PlacedKept<T>(tab: seq<Option<T>>, tab': seq<Option<T>>, h: Probe, i: nat)
    requires Good(h, |tab|) && |tab'| == |tab| && Placed(tab, h, i)
    requires forall x :: 0 <= x < |tab| && tab[x].Some? ==> tab'[x].Some?
    ensures Placed(tab', h, i)
  {
    var k: nat :| k < |tab| && Slot(h, |tab|, k) == i && Passed(tab, h, k);
    assert Passed(tab', h, k);
  }

  /** A table that is larger than the set of keys its slots can hold, each once, has a free slot. */
  lemma {:induction false} SomeFree<T(!new), U(!new)>(tab: seq<Option<T>>, key: T -> U, all: set<U>)
    requires forall i :: 0 <= i < |tab| && tab[i].Some? ==> key(tab[i].value) in all
    requires forall i, j :: 0 <= i < j < |tab| && tab[i].Some? && tab[j].Some? ==> key(tab[i].value) != key(tab[j].value)
    requires |all| < |tab|
    ensures Room(tab)
  {
    var n := |tab| - 1;
    if tab[n].Some? {
      SomeFree(tab[..n], key, all - {key(tab[n].value)});
      var i :| 0 <= i < n && tab[..n][i].None?;
      assert tab[i].None?;
    }
  }

  // ---- names ----

  /** The table of names. The names of a run are some of `all`, and there are more slots than those. */
  class NameTable {
    const tab: array<Option<string>>
    const hash: string -> Probe
    ghost const all: set<string>

    constructor (size: nat, hash: string -> Probe, ghost all: set<string>)
      requires Prime(size) && (forall s :: Good(hash(s), size)) && |all| < size
      ensures Valid() && fresh(tab) && tab.Length == size && this.hash == hash && this.all == all
      ensures forall i :: 0 <= i < size ==> tab[i].None?
    {
      this.hash, this.all := hash, all;
      tab := new Option<string>[size](i => None);
    }

    ghost predicate Valid()
      reads tab
    {
      && Prime(tab.Length) && (forall s :: Good(hash(s), tab.Length))
      && NamesOk(tab[..], hash) && |all| < tab.Length && NamesIn(tab[..], all)
    }

    /** search_name_hashtable: the index of the name, which is added if it is not there. */
    method Search(key: string) returns (addr: nat)
      requires Valid() && key in all
      modifies tab
      ensures Valid() && addr < tab.Length && tab[addr] == Some(key)
      ensures forall i :: 0 <= i < tab.Length && i != addr ==> tab[i] == old(tab[i])
      ensures old(tab[addr]).Some? ==> old(tab[addr]) == Some(key)
      ensures (exists i :: 0 <= i < tab.Length && old(tab[i]) == Some(key)) ==> old(tab[addr]) == Some(key)
      ensures Extends(old(tab[..]), tab[..])
    {
      hide Prime;
      ghost var was, h := tab[..], hash(key);
      ghost var k;
      SomeFree(was, (s: string) => s, all);
      addr, k := Find(tab, hash(key), (s: string) => s == key);
      if tab[addr].None? {
        NameIsNew(was, hash, key, k);
        AddName(was, hash, key, k);
        tab[addr] := Some(key);
        assert tab[..] == was[addr := Some(key)];
      }
    }
  }

  ghost predicate NamesIn(tab: seq<Option<string>>, all: set<string>)
  {
    forall i :: 0 <= i < |tab| && tab[i].Some? ==> tab[i].value in all
  }

  /** Names may be added but stay where they are. */
  ghost predicate Extends(names: seq<Option<string>>, names': seq<Option<string>>)
  {
    |names'| == |names| && forall i :: 0 <= i < |names| && names[i].Some? ==> names'[i] == names[i]
  }

  /** Each name stands at one place only. */
  ghost predicate Unique(names: seq<Option<string>>)
  {
    forall i, j :: 0 <= i < j < |names| && names[i].Some? && names[j].Some? ==> names[i].value != names[j].value
  }

  /** Every name is where its probe finds it, and no name is there twice. */
  ghost predicate NamesOk(tab: seq<Option<string>>, hash: string -> Probe)
    requires forall s :: Good(hash(s), |tab|)
  {
    && (forall i :: 0 <= i < |tab| && tab[i].Some? ==> Placed(tab, hash(tab[i].value), i))
    && Unique(tab)
  }

  lemma NameIsNew(tab: seq<Option<string>>, hash: string -> Probe, key: string, k: nat)
    requires (forall s :: Good(hash(s), |tab|)) && NamesOk(tab, hash) && k < |tab|
    requires tab[Slot(hash(key), |tab|, k)].None?
    requires forall j: nat :: j < k ==> tab[Slot(hash(key), |tab|, j)].Some? && tab[Slot(hash(key), |tab|, j)].value != key
    ensures forall i :: 0 <= i < |tab| ==> tab[i] != Some(key)
  {
    forall i | 0 <= i < |tab| ensures tab[i] != Some(key) {
      if tab[i] == Some(key) {
        var j := PassedAll(tab, hash(key), k, i);
      }
    }
  }

  lemma AddName(tab: seq<Option<string>>, hash: string -> Probe, key: string, k: nat)
    requires (forall s :: Good(hash(s), |tab|)) && NamesOk(tab, hash) && k < |tab|
    requires Passed(tab, hash(key), k) && forall i :: 0 <= i < |tab| ==> tab[i] != Some(key)
    requires tab[Slot(hash(key), |tab|, k)].None?
    ensures NamesOk(tab[Slot(hash(key), |tab|, k) := Some(key)], hash)
  {
    var a := Slot(hash(key), |tab|, k);
    var tab' := tab[a := Some(key)];
    FoundIsPlaced(tab, hash(key), k);
    forall i | 0 <= i < |tab| && tab'[i].Some? ensures Placed(tab', hash(tab'[i].value), i) {
      PlacedKept(tab, tab', hash(tab'[i].value), i);
    }
  }

  /** Any run of searches from an empty table with more slots than there are different names: equal names get
      equal indices, different names different ones, and every index still stands for its name at the end. */
  method InternAll(size: nat, hash: string -> Probe, keys: seq<string>) returns (t: NameTable, index: seq<nat>)
    requires Prime(size) && (forall s :: Good(hash(s), size)) && |set k | k in keys| < size
    ensures |index| == |keys| && t.tab.Length == size
    ensures forall a :: 0 <= a < |keys| ==> index[a] < size && t.tab[index[a]] == Some(keys[a])
    ensures forall a, b :: 0 <= a < |keys| && 0 <= b < |keys| ==> (index[a] == index[b] <==> keys[a] == keys[b])
  {
    hide Prime, NamesOk;
    t := new NameTable(size, hash, set k | k in keys);
    index := [];
    while |index| < |keys|
      invariant |index| <= |keys| && t.Valid() && t.tab.Length == size && t.hash == hash && t.all == set k | k in keys
      invariant fresh(t.tab)
      invariant forall a :: 0 <= a < |index| ==> index[a] < size && t.tab[index[a]] == Some(keys[a])
      decreases |keys| - |index|
    {
      var addr := t.Search(keys[|index|]);
      index := index + [addr];
    }
    forall a, b | 0 <= a < |keys| && 0 <= b < |keys| ensures index[a] == index[b] <==> keys[a] == keys[b] {
      SameIndex(t.tab[..], hash, index[a], index[b]);
    }
  }

  lemma SameIndex(tab: seq<Option<string>>, hash: string -> Probe, i: nat, j: nat)
    requires (forall s :: Good(hash(s), |tab|)) && NamesOk(tab, hash) && i < |tab| && j < |tab| && tab[i].Some? && tab[j].Some?
    ensures i == j <==> tab[i] == tab[j]
  {
  }

  // ---- packages ----

  /** The name with an index. */
  function Text(names: seq<Option<string>>, i: nat): (s: string)
  {
    if i < |names| && names[i].Some? then names[i].value else ""
  }

  ghost predicate Known(names: seq<Option<string>>, i: nat)
  {
    i < |names| && names[i].Some?
  }

  /** A dependency of a package; `kind` is the number of the edge type. */
  datatype Edge = Edge(kind: nat, name: nat, version: nat, op: Operator)

  /** A package; its name and version are indices of the name table. */
  datatype Node = Node(name: nat, version: nat, edges: seq<Edge>)

  /** The package is of that name and its version passes the test. */
  predicate Matches(versions: nat -> Version, n: Node, name: nat, version: nat, op: Operator)
  {
    n.name == name && Test(Cmp(versions(n.version), versions(version)), op)
  }

  /** Every package is where the probe of its name finds it, and no two are of equal name and version. */
  ghost predicate PackagesOk(tab: seq<Option<Node>>, hash: nat -> Probe, versions: nat -> Version)
    requires forall n :: Good(hash(n), |tab|)
  {
    && (forall i :: 0 <= i < |tab| && tab[i].Some? ==> Placed(tab, hash(tab[i].value.name), i))
    && (forall i, j :: 0 <= i < |tab| && 0 <= j < |tab| && i != j && tab[i].Some? && tab[j].Some? ==>
          !Matches(versions, tab[i].value, tab[j].value.name, tab[j].value.version, Equal))
  }

  /** Some stored package matches. */
  ghost predicate Stored(tab: seq<Option<Node>>, versions: nat -> Version, name: nat, version: nat, op: Operator)
  {
    exists i :: 0 <= i < |tab| && tab[i].Some? && Matches(versions, tab[i].value, name, version, op)
  }

  lemma NotStored(tab: seq<Option<Node>>, hash: nat -> Probe, versions: nat -> Version, name: nat, version: nat, op: Operator, k: nat)
    requires (forall n :: Good(hash(n), |tab|)) && PackagesOk(tab, hash, versions) && k < |tab|
    requires Passed(tab, hash(name), k) && tab[Slot(hash(name), |tab|, k)].None?
    requires forall j: nat :: j < k ==> !Matches(versions, tab[Slot(hash(name), |tab|, j)].value, name, version, op)
    ensures !Stored(tab, versions, name, version, op)
  {
    hide Cmp, Test;
    forall i | 0 <= i < |tab| && tab[i].Some? ensures !Matches(versions, tab[i].value, name, version, op) {
      if tab[i].value.name == name {
        var j := PassedAll(tab, hash(name), k, i);
      }
    }
  }

  /** Storing a package where the search for it ends keeps every package in its place and unique. */
  lemma StoreKeeps(tab: seq<Option<Node>>, hash: nat -> Probe, versions: nat -> Version, n: Node, num: nat)
    requires (forall x :: Good(hash(x), |tab|)) && PackagesOk(tab, hash, versions) && num < |tab|
    requires Placed(tab, hash(n.name), num)
    requires tab[num].Some? <==> Stored(tab, versions, n.name, n.version, Equal)
    requires tab[num].Some? ==> Matches(versions, tab[num].value, n.name, n.version, Equal)
    ensures PackagesOk(tab[num := Some(n)], hash, versions)
  {
    hide Cmp, Placed;
    var tab' := tab[num := Some(n)];
    forall i | 0 <= i < |tab| && tab'[i].Some? ensures Placed(tab', hash(tab'[i].value.name), i) {
      PlacedKept(tab, tab', hash(tab'[i].value.name), i);
    }
    forall i | 0 <= i < |tab| && i != num && tab[i].Some?
      ensures !Matches(versions, tab[i].value, n.name, n.version, Equal)
      ensures !Matches(versions, n, tab[i].value.name, tab[i].value.version, Equal)
    {
      var a, b := versions(tab[i].value.version), versions(n.version);
      CmpTotalPreorder(a, b, b);
      if tab[num].Some? {
        var c := versions(tab[num].value.version);
        EqualInterchangeable(c, b, a, Equal);
        CmpTotalPreorder(a, c, c);
        assert !Matches(versions, tab[i].value, tab[num].value.name, tab[num].value.version, Equal);
      }
    }
  }

  // ---- status ----

  /** The status of a package: its slot in the package table, and the index of the status line. */
  datatype Status = Status(package: nat, words: nat)

  /** The name of the package that a status belongs to. */
  function Owner(packages: seq<Option<Node>>, names: seq<Option<string>>, s: Status): (name: string)
  {
    if s.package < |packages| && packages[s.package].Some? then Text(names, packages[s.package].value.name) else ""
  }

  /** Every status belongs to a stored package and is where the probe of its name finds it, and no package has two. */
  ghost predicate StatusOk(tab: seq<Option<Status>>, packages: seq<Option<Node>>, names: seq<Option<string>>, hash: string -> Probe)
    requires forall s :: Good(hash(s), |tab|)
  {
    && (forall i :: 0 <= i < |tab| && tab[i].Some? ==>
          && tab[i].value.package < |packages| && packages[tab[i].value.package].Some?
          && Placed(tab, hash(Owner(packages, names, tab[i].value)), i))
    && (forall i, j :: 0 <= i < j < |tab| && tab[i].Some? && tab[j].Some? ==>
          Owner(packages, names, tab[i].value) != Owner(packages, names, tab[j].value))
  }

  ghost predicate HasStatus(tab: seq<Option<Status>>, packages: seq<Option<Node>>, names: seq<Option<string>>, name: string)
  {
    exists i :: 0 <= i < |tab| && tab[i].Some? && Owner(packages, names, tab[i].value) == name
  }

  /** Replacing a package by one of the same name does not disturb the status table. */
  lemma StatusKept(tab: seq<Option<Status>>, packages: seq<Option<Node>>, names: seq<Option<string>>, hash: string -> Probe, num: nat, n: Node)
    requires (forall s :: Good(hash(s), |tab|)) && StatusOk(tab, packages, names, hash) && num < |packages|
    requires packages[num].Some? ==> packages[num].value.name == n.name
    ensures StatusOk(tab, packages[num := Some(n)], names, hash)
    ensures forall i :: 0 <= i < |tab| && tab[i].Some? ==> Owner(packages[num := Some(n)], names, tab[i].value) == Owner(packages, names, tab[i].value)
  {
    var packages' := packages[num := Some(n)];
    forall i | 0 <= i < |tab| && tab[i].Some? ensures Owner(packages', names, tab[i].value) == Owner(packages, names, tab[i].value) {
    }
  }

  lemma NoStatus(tab: seq<Option<Status>>, packages: seq<Option<Node>>, names: seq<Option<string>>, hash: string -> Probe, name: string, k: nat)
    requires (forall s :: Good(hash(s), |tab|)) && StatusOk(tab, packages, names, hash) && k < |tab|
    requires Passed(tab, hash(name), k) && tab[Slot(hash(name), |tab|, k)].None?
    requires forall j: nat :: j < k ==> Owner(packages, names, tab[Slot(hash(name), |tab|, j)].value) != name
    ensures !HasStatus(tab, packages, names, name)
  {
    forall i | 0 <= i < |tab| && tab[i].Some? ensures Owner(packages, names, tab[i].value) != name {
      if Owner(packages, names, tab[i].value) == name {
        var j := PassedAll(tab, hash(name), k, i);
      }
    }
  }

  /** A status put where the search for its owner ends. */
  lemma StatusPut(tab: seq<Option<Status>>, packages: seq<Option<Node>>, names: seq<Option<string>>, hash: string -> Probe, s: Status, num: nat)
    requires (forall s :: Good(hash(s), |tab|)) && StatusOk(tab, packages, names, hash) && num < |tab|
    requires s.package < |packages| && packages[s.package].Some?
    requires Placed(tab, hash(Owner(packages, names, s)), num)
    requires if tab[num].Some? then Owner(packages, names, tab[num].value) == Owner(packages, names, s)
             else !HasStatus(tab, packages, names, Owner(packages, names, s))
    ensures StatusOk(tab[num := Some(s)], packages, names, hash)
  {
    hide Placed;
    var tab' := tab[num := Some(s)];
    forall i | 0 <= i < |tab| && tab'[i].Some? ensures Placed(tab', hash(Owner(packages, names, tab'[i].value)), i) {
      PlacedKept(tab, tab', hash(Owner(packages, names, tab'[i].value)), i);
    }
    forall i | 0 <= i < |tab| && i != num && tab[i].Some? ensures Owner(packages, names, tab[i].value) != Owner(packages, names, s) {
    }
  }

  // ---- the three tables together ----

  function HashOf(hash: (string, nat) -> Probe, names: seq<Option<string>>, p: nat): (h: nat -> Probe)
  {
    (n: nat) => hash(Text(names, n), p)
  }

  function Hasher(hash: (string, nat) -> Probe, p: nat): (h: string -> Probe)
  {
    (s: string) => hash(s, p)
  }

  function VersionsOf(names: seq<Option<string>>, atoi: string -> nat): (v: nat -> Version)
  {
    (n: nat) => Split(Text(names, n), atoi)
  }

  /** What make_hash promises. */
  ghost predicate HashFits(hash: (string, nat) -> Probe)
  {
    forall s, p :: p >= 2 ==> Good(hash(s, p), p)
  }

  /** The packages have names, and they and their versions are some of `pairs`. */
  ghost predicate NodesKnown(packages: seq<Option<Node>>, names: seq<Option<string>>, pairs: set<(string, string)>)
  {
    forall i :: 0 <= i < |packages| && packages[i].Some? ==>
      && Known(names, packages[i].value.name) && Known(names, packages[i].value.version)
      && (Text(names, packages[i].value.name), Text(names, packages[i].value.version)) in pairs
  }

  ghost predicate OwnersIn(tab: seq<Option<Status>>, packages: seq<Option<Node>>, names: seq<Option<string>>, owners: set<string>)
  {
    forall i :: 0 <= i < |tab| && tab[i].Some? ==> Owner(packages, names, tab[i].value) in owners && Known(names, tab[i].value.words)
  }

  ghost predicate TablesOk(names: seq<Option<string>>, packages: seq<Option<Node>>, statuses: seq<Option<Status>>,
                           hash: (string, nat) -> Probe, atoi: string -> nat, pairs: set<(string, string)>, owners: set<string>)
    requires HashFits(hash)
  {
    && |packages| == PACKAGE_HASH_PRIME && |statuses| == STATUS_HASH_PRIME && Unique(names)
    && |pairs| < PACKAGE_HASH_PRIME && |owners| < STATUS_HASH_PRIME
    && PackagesOk(packages, HashOf(hash, names, PACKAGE_HASH_PRIME), VersionsOf(names, atoi)) && NodesKnown(packages, names, pairs)
    && StatusOk(statuses, packages, names, Hasher(hash, STATUS_HASH_PRIME)) && OwnersIn(statuses, packages, names, owners)
  }

  /** Adding names keeps the tables of packages and of status. */
  lemma TablesGrow(names: seq<Option<string>>, names': seq<Option<string>>, packages: seq<Option<Node>>, statuses: seq<Option<Status>>,
                   hash: (string, nat) -> Probe, atoi: string -> nat, pairs: set<(string, string)>, owners: set<string>)
    requires HashFits(hash) && TablesOk(names, packages, statuses, hash, atoi, pairs, owners) && Extends(names, names') && Unique(names')
    ensures TablesOk(names', packages, statuses, hash, atoi, pairs, owners)
  {
    hide Placed, Cmp, Split, Test;
    assert PackagesOk(packages, HashOf(hash, names', PACKAGE_HASH_PRIME), VersionsOf(names', atoi)) by {
      PackagesAgree(packages, HashOf(hash, names, PACKAGE_HASH_PRIME), VersionsOf(names, atoi), HashOf(hash, names', PACKAGE_HASH_PRIME), VersionsOf(names', atoi));
    }
    OwnersAgree(packages, statuses, names, names');
  }

  lemma PackagesAgree(tab: seq<Option<Node>>, hash: nat -> Probe, versions: nat -> Version, hash': nat -> Probe, versions': nat -> Version)
    requires (forall n :: Good(hash(n), |tab|)) && (forall n :: Good(hash'(n), |tab|)) && PackagesOk(tab, hash, versions)
    requires forall i :: 0 <= i < |tab| && tab[i].Some? ==>
               hash'(tab[i].value.name) == hash(tab[i].value.name) && versions'(tab[i].value.version) == versions(tab[i].value.version)
    ensures PackagesOk(tab, hash', versions')
  {
    hide Placed, Cmp, Test;
  }

  lemma OwnersAgree(packages: seq<Option<Node>>, statuses: seq<Option<Status>>, names: seq<Option<string>>, names': seq<Option<string>>)
    requires Extends(names, names') && forall i :: 0 <= i < |packages| && packages[i].Some? ==> Known(names, packages[i].value.name)
    ensures forall s: Status :: s.package < |packages| && packages[s.package].Some? ==> Owner(packages, names', s) == Owner(packages, names, s)
  {
  }

  /** A package belongs to one pair of name and version. */
  lemma PackageRoom(packages: seq<Option<Node>>, names: seq<Option<string>>, hash: nat -> Probe, atoi: string -> nat, pairs: set<(string, string)>)
    requires (forall n :: Good(hash(n), |packages|)) && PackagesOk(packages, hash, VersionsOf(names, atoi))
    requires NodesKnown(packages, names, pairs) && Unique(names) && |pairs| < |packages|
    ensures Room(packages)
  {
    hide Cmp, Placed, Split;
    var key := (n: Node) => (Text(names, n.name), Text(names, n.version));
    forall i, j | 0 <= i < j < |packages| && packages[i].Some? && packages[j].Some? ensures key(packages[i].value) != key(packages[j].value) {
      var v := VersionsOf(names, atoi)(packages[i].value.version);
      CmpTotalPreorder(v, v, v);
      assert !Matches(VersionsOf(names, atoi), packages[i].value, packages[j].value.name, packages[j].value.version, Equal);
    }
    SomeFree(packages, key, pairs);
  }

  lemma StatusRoom(tab: seq<Option<Status>>, packages: seq<Option<Node>>, names: seq<Option<string>>, hash: string -> Probe, owners: set<string>)
    requires (forall s :: Good(hash(s), |tab|)) && StatusOk(tab, packages, names, hash) && OwnersIn(tab, packages, names, owners) && |owners| < |tab|
    ensures Room(tab)
  {
    hide Placed, Owner;
    SomeFree(tab, (s: Status) => Owner(packages, names, s), owners);
  }

  /** The three tables. The packages of a run have names and versions among `pairs`, those with a status have names
      among `owners`, and there are more slots than those. */
  class Tables {
    const names: NameTable
    const packages: array<Option<Node>>
    const statuses: array<Option<Status>>
    const hash: (string, nat) -> Probe   // make_hash
    const atoi: string -> nat
    ghost const pairs: set<(string, string)>
    ghost const owners: set<string>

    constructor (hash: (string, nat) -> Probe, atoi: string -> nat, ghost all: set<string>, ghost pairs: set<(string, string)>, ghost owners: set<string>)
      requires HashFits(hash) && |all| < NAME_HASH_PRIME && |pairs| < PACKAGE_HASH_PRIME && |owners| < STATUS_HASH_PRIME
      ensures Valid() && fresh(names) && fresh(names.tab) && fresh(packages) && fresh(statuses)
      ensures this.hash == hash && this.atoi == atoi && names.all == all && this.pairs == pairs && this.owners == owners
      ensures packages.Length == PACKAGE_HASH_PRIME && statuses.Length == STATUS_HASH_PRIME
      ensures (forall i :: 0 <= i < PACKAGE_HASH_PRIME ==> packages[i].None?) && forall i :: 0 <= i < STATUS_HASH_PRIME ==> statuses[i].None?
    {
      hide Prime, Split, NamesOk, Cmp;
      SizesArePrime();
      this.hash, this.atoi, this.pairs, this.owners := hash, atoi, pairs, owners;
      names := new NameTable(NAME_HASH_PRIME, Hasher(hash, NAME_HASH_PRIME), all);
      packages := new Option<Node>[PACKAGE_HASH_PRIME](i => None);
      statuses := new Option<Status>[STATUS_HASH_PRIME](i => None);
    }

    ghost predicate Valid()
      reads names.tab, packages, statuses
    {
      && names.Valid() && HashFits(hash) && Prime(PACKAGE_HASH_PRIME) && Prime(STATUS_HASH_PRIME)
      && TablesOk(names.tab[..], packages[..], statuses[..], hash, atoi, pairs, owners)
    }

    /** The version with an index. */
    function Versions(): (v: nat -> Version)
      reads names.tab
    {
      VersionsOf(names.tab[..], atoi)
    }

    /** search_package_hashtable: an occupied slot exactly when some stored package of that name passes the test. */
    method SearchPackage(name: nat, version: nat, op: Operator) returns (addr: nat)
      requires Valid()
      ensures addr < packages.Length == PACKAGE_HASH_PRIME
      ensures packages[addr].Some? <==> Stored(packages[..], Versions(), name, version, op)
      ensures packages[addr].Some? ==> Matches(Versions(), packages[addr].value, name, version, op)
      ensures Placed(packages[..], HashOf(hash, names.tab[..], PACKAGE_HASH_PRIME)(name), addr)
    {
      hide Prime, Cmp, Test, PackagesOk, NodesKnown, StatusOk, OwnersIn, NamesOk, Split;
      var vs := Versions();
      ghost var h := HashOf(hash, names.tab[..], PACKAGE_HASH_PRIME);
      ghost var k;
      PackageRoom(packages[..], names.tab[..], h, atoi, pairs);
      addr, k := Find(packages, hash(Text(names.tab[..], name), PACKAGE_HASH_PRIME), (n: Node) => Matches(vs, n, name, version, op));
      FoundIsPlaced(packages[..], h(name), k);
      if packages[addr].None? {
        NotStored(packages[..], h, vs, name, version, op, k);
      }
    }

    /** The end of fill_package_struct: the package takes the place of the one of equal name and version,
        if there is one, and a free slot otherwise. */
    method Store(n: Node) returns (num: nat)
      requires Valid() && Known(names.tab[..], n.name) && Known(names.tab[..], n.version)
      requires (Text(names.tab[..], n.name), Text(names.tab[..], n.version)) in pairs
      modifies packages
      ensures Valid() && num < packages.Length == PACKAGE_HASH_PRIME && packages[num] == Some(n)
      ensures packages[..] == old(packages[..])[num := Some(n)]
      ensures old(packages[num]).Some? ==>
                Matches(Versions(), old(packages[num]).value, n.name, n.version, Equal) && Known(names.tab[..], old(packages[num]).value.name)
      ensures old(packages[num]).Some? <==> Stored(old(packages[..]), Versions(), n.name, n.version, Equal)
    {
      hide Prime, Cmp, Test, PackagesOk, StatusOk, NamesOk, Split;
      ghost var was, names0 := packages[..], names.tab[..];
      num := SearchPackage(n.name, n.version, Equal);
      packages[num] := Some(n);
      assert packages[..] == was[num := Some(n)];
      StoreKeeps(was, HashOf(hash, names0, PACKAGE_HASH_PRIME), Versions(), n, num);
      StatusKept(statuses[..], was, names0, Hasher(hash, STATUS_HASH_PRIME), num, n);
    }

    /** search_status_hashtable: an occupied slot exactly when the package of that name has a status. */
    method SearchStatus(name: string) returns (addr: nat)
      requires Valid()
      ensures addr < statuses.Length == STATUS_HASH_PRIME
      ensures statuses[addr].Some? <==> HasStatus(statuses[..], packages[..], names.tab[..], name)
      ensures statuses[addr].Some? ==> Owner(packages[..], names.tab[..], statuses[addr].value) == name
      ensures Placed(statuses[..], hash(name, STATUS_HASH_PRIME), addr)
    {
      hide Prime, PackagesOk, NodesKnown, StatusOk, OwnersIn, NamesOk;
      var ps, ns := packages[..], names.tab[..];
      ghost var h := Hasher(hash, STATUS_HASH_PRIME);
      ghost var k;
      StatusRoom(statuses[..], ps, ns, h, owners);
      addr, k := Find(statuses, hash(name, STATUS_HASH_PRIME), (s: Status) => Owner(ps, ns, s) == name);
      FoundIsPlaced(statuses[..], h(name), k);
      if statuses[addr].None? {
        NoStatus(statuses[..], ps, ns, h, name, k);
      }
    }

    /** The end of index_status_file's loop: the package in that slot gets the status, in place of the one that a
        package of its name had. */
    method SetStatus(package: nat, words: nat) returns (num: nat)
      requires Valid() && package < packages.Length && packages[package].Some? && Known(names.tab[..], words)
      requires Text(names.tab[..], packages[package].value.name) in owners
      modifies statuses
      ensures Valid() && num < statuses.Length && statuses[..] == old(statuses[..])[num := Some(Status(package, words))]
      ensures old(statuses[num]).Some? ==> Owner(packages[..], names.tab[..], old(statuses[num]).value) == Text(names.tab[..], packages[package].value.name)
    {
      hide Prime, PackagesOk, NodesKnown, StatusOk, NamesOk;
      ghost var was := statuses[..];
      num := SearchStatus(Text(names.tab[..], packages[package].value.name));
      statuses[num] := Some(Status(package, words));
      assert statuses[..] == was[num := Some(Status(package, words))];
      StatusPut(was, packages[..], names.tab[..], Hasher(hash, STATUS_HASH_PRIME), Status(package, words), num);
    }
  }
}
