/** What the kernel finds in an image, in terms of the host tree that the image was built from. */
module MkfsHost {
  import opened Wrappers
  import opened FsLayout
  import opened FsNames
  import opened FsStore
  import opened MkfsStore
  import opened MkfsAppend
  import opened MkfsTree
  import opened MkfsGood
  import opened MkfsKernel
  import FileSystem
  import FsContents
  import FsNamex

  type Name = seq<byte>

  // ----- names of the host -----

  /** The names that the entries get: cut to 14 bytes, without the dot entries. */
  function CutNames(es: seq<Host>): seq<Name> {
    if es == [] then []
    else CutNames(es[..|es| - 1]) + if IsDots(es[|es| - 1].name) then [] else [Key(es[|es| - 1].name)]
  }

  predicate Apart(names: seq<Name>) { forall j: nat, k: nat | j < k < |names| :: names[j] != names[k] }

  /** The names stay different after the cut, in this listing and in all below it. */
  ghost predicate TreeApart(es: seq<Host>)
    decreases es
  {
    Apart(CutNames(es)) && forall j: nat | j < |es| :: HostApart(es[j])
  }

  ghost predicate HostApart(e: Host)
    decreases e
  {
    e.HDir? && !IsDots(e.name) ==> TreeApart(e.entries)
  }

  /** The names of the children are the cut names of the listing. */
  lemma {:induction false} KidsCut(nodes: Nodes, n: nat, cur: nat, kids: seq<Kid>, es: seq<Host>)
    requires Mirrors(nodes, n, cur, kids, es)
    ensures |kids| == |CutNames(es)| && forall j: nat | j < |kids| :: kids[j].name == CutNames(es)[j]
    decreases |es|
  {
    hide Key;
    if es != [] {
      var rest := es[..|es| - 1];
      if IsDots(es[|es| - 1].name) {
        KidsCut(nodes, n, cur, kids, rest);
      } else {
        KidsCut(nodes, n, cur, kids[..|kids| - 1], rest);
      }
    }
  }

  lemma DistinctApart(nodes: Nodes, n: nat, cur: nat, kids: seq<Kid>, es: seq<Host>)
    requires Mirrors(nodes, n, cur, kids, es)
    ensures DistinctNames(kids) <==> Apart(CutNames(es))
  {
    KidsCut(nodes, n, cur, kids, es);
    hide Mirrors, CutNames;
    if DistinctNames(kids) {
      var names := CutNames(es);
      forall j: nat, k: nat | j < k < |names| ensures names[j] != names[k] {
        assert kids[j].name != kids[k].name;
      }
    }
  }

  /** Child j comes from an entry of the listing. */
  lemma {:induction false} KidHost(nodes: Nodes, n: nat, cur: nat, kids: seq<Kid>, es: seq<Host>, j: nat)
    returns (e: Host)
    requires Mirrors(nodes, n, cur, kids, es) && j < |kids|
    ensures e in es && !IsDots(e.name) && kids[j].name == Key(e.name)
    ensures kids[j].inum in nodes && MirrorsNode(nodes, n, cur, kids[j].inum, e)
    decreases |es|
  {
    hide Key;
    var last, rest := es[|es| - 1], es[..|es| - 1];
    if IsDots(last.name) {
      e := KidHost(nodes, n, cur, kids, rest, j);
    } else if j == |kids| - 1 {
      e := last;
    } else {
      e := KidHost(nodes, n, cur, kids[..|kids| - 1], rest, j);
    }
  }

  /** Every directory that was built comes from a listing, which is apart when the whole tree is. */
  lemma {:induction false} NodeListing(w: Made, d: nat, es0: seq<Host>) returns (es: seq<Host>)
    requires Built(w) && 1 in w.nodes && w.nodes[1].Dir? && Mirrors(w.nodes, w.fi, 1, w.nodes[1].kids, es0)
    requires d in w.nodes && w.nodes[d].Dir?
    ensures Mirrors(w.nodes, w.fi, d, w.nodes[d].kids, es) && (TreeApart(es0) ==> TreeApart(es))
    decreases d
  {
    hide Mirrors, CutNames;
    if d == 1 {
      es := es0;
    } else {
      PlacedAt(w, d);
      hide Built;
      var p := w.place[d];
      var above := NodeListing(w, p.d, es0);
      var e := KidHost(w.nodes, w.fi, p.d, w.nodes[p.d].kids, above, p.j);
      assert TreeApart(above) ==> HostApart(e);
      if e.HShut? {
        es := [];
        NoHosts(w.nodes, w.fi, d);
      } else {
        es := e.entries;
      }
    }
  }

  lemma NoHosts(nodes: Nodes, n: nat, cur: nat)
    ensures Mirrors(nodes, n, cur, [], []) && TreeApart([])
  {}

  lemma PlacedAt(w: Made, d: nat)
    requires Built(w) && d in w.nodes && d != 1
    ensures d in w.place && w.place[d].d < d && w.place[d].d in w.nodes && w.nodes[w.place[d].d].Dir?
    ensures w.place[d].j < |w.nodes[w.place[d].d].kids| && w.nodes[w.place[d].d].kids[w.place[d].j].inum == d
  {
    hide Allotted, RecordsOk, AllStored, BitsBelow, SuperOk;
    assert Placed(w.nodes, w.place[d], d, w.fi);
  }

  /** When all directories have different names, so has everything that is listed. */
  lemma {:induction false} ApartFrom(nodes: Nodes, n: nat, cur: nat, kids: seq<Kid>, es: seq<Host>)
    requires Mirrors(nodes, n, cur, kids, es)
    requires forall d | d in nodes && nodes[d].Dir? :: DistinctNames(nodes[d].kids)
    ensures forall j: nat | j < |es| :: HostApart(es[j])
    decreases es
  {
    hide DistinctNames, CutNames, Apart, Key;
    if es != [] {
      var e, rest := es[|es| - 1], es[..|es| - 1];
      if IsDots(e.name) {
        ApartFrom(nodes, n, cur, kids, rest);
      } else {
        ApartFrom(nodes, n, cur, kids[..|kids| - 1], rest);
        if e.HDir? {
          var k := kids[|kids| - 1].inum;
          ApartFrom(nodes, n, k, nodes[k].kids, e.entries);
          DistinctApart(nodes, n, k, nodes[k].kids, e.entries);
        }
      }
      assert HostApart(e);
      assert forall j: nat | j < |rest| :: rest[j] == es[j];
    }
  }

  /** All directories of the image have different names exactly when the host's names stay apart. */
  lemma NodesApart(w: Made, es: seq<Host>)
    requires Built(w) && 1 in w.nodes && w.nodes[1].Dir? && Mirrors(w.nodes, w.fi, 1, w.nodes[1].kids, es)
    ensures (forall d | d in w.nodes && w.nodes[d].Dir? :: DistinctNames(w.nodes[d].kids)) <==> TreeApart(es)
  {
    hide Built, DistinctNames, CutNames, Apart, Mirrors;
    if forall d | d in w.nodes && w.nodes[d].Dir? :: DistinctNames(w.nodes[d].kids) {
      ApartFrom(w.nodes, w.fi, 1, w.nodes[1].kids, es);
      DistinctApart(w.nodes, w.fi, 1, w.nodes[1].kids, es);
    }
    if TreeApart(es) {
      forall d | d in w.nodes && w.nodes[d].Dir? ensures DistinctNames(w.nodes[d].kids) {
        var below := NodeListing(w, d, es);
        DistinctApart(w.nodes, w.fi, d, w.nodes[d].kids, below);
      }
    }
  }

  // ----- directories of the kernel -----

  /** The inodes of type directory are the directories of the tree, and all children are in use. */
  lemma DirTypes(w: Made, i: nat)
    requires Built(w) && i < |w.s.ino|
    ensures w.s.ino[i].typ == T_DIR <==> i in w.nodes && w.nodes[i].Dir?
    ensures i in w.nodes ==> w.s.ino[i].typ != 0
  {
    hide Allotted, RecordsOk, BitsBelow, SuperOk, Tree, Holds, Filled, Data;
    if i in w.nodes { assert Stores(w.s, i, w.nodes[i]); } else { NotHandedOut(w, i); }
  }

  lemma NotHandedOut(w: Made, i: nat)
    requires Built(w) && i < |w.s.ino| && i !in w.nodes
    ensures w.s.ino[i] == Blank(0)
  {
    hide Allotted, RecordsOk, BitsBelow, SuperOk, Stores, Placed;
  }

  /** The entries of a directory in order name inodes in use. */
  lemma DirTargets(w: Made, d: nat)
    requires Built(w) && d in w.nodes && w.nodes[d].Dir? && d < |w.s.ino| && FsContents.DirOk(w.s, d)
    ensures FsNamex.Targets(w.s, d)
  {
    hide Built, FsContents.Dir, AllKids;
    BuiltDir(w, d);
    KidsThere(w, d);
    var m, kids := FsContents.Dir(w.s, d), AllKids(d, w.nodes[d]);
    forall k | k in m ensures m[k] < |w.s.ino| && w.s.ino[m[k]].typ != 0 {
      var n: nat :| n < |kids| && kids[n].name == k;
      KidFacts(w, d, n);
      Bounds(w);
      ShapeBuilt(w);
      DirTypes(w, kids[n].inum);
    }
  }

  /** The directories of an image are in order for the kernel if and only if the names of the host
      tree stay different after the cut to 14 bytes. */
  lemma BuiltDirs(w: Made, es: seq<Host>)
    requires Built(w) && 1 in w.nodes && w.nodes[1].Dir? && Mirrors(w.nodes, w.fi, 1, w.nodes[1].kids, es)
    ensures FsNamex.DirsOk(w.s) <==> TreeApart(es)
  {
    NodesApart(w, es);
    hide Built, TreeApart, Mirrors, DistinctNames, FsContents.DirOk, FsNamex.Targets;
    if FsNamex.DirsOk(w.s) {
      forall d | d in w.nodes && w.nodes[d].Dir? ensures DistinctNames(w.nodes[d].kids) {
        BuiltDir(w, d);
        DirTypes(w, d);
      }
    }
    if TreeApart(es) {
      forall i: nat | i < |w.s.ino| && w.s.ino[i].typ == T_DIR
        ensures FsContents.DirOk(w.s, i) && FsNamex.Targets(w.s, i)
      {
        DirTypes(w, i);
        BuiltDir(w, i);
        DirTargets(w, i);
      }
    }
  }

  // ----- paths -----

  /** The entry of a listing with the name, as the image has it. */
  function FindHost(es: seq<Host>, name: Name): Option<Host> {
    if es == [] then None
    else
      var e := es[|es| - 1];
      if !IsDots(e.name) && Key(e.name) == Key(name) then Some(e) else FindHost(es[..|es| - 1], name)
  }

  /** What the host has at a path. */
  function HostAt(es: seq<Host>, names: seq<Name>): Option<Host>
    requires names != []
    decreases |names|
  {
    var e := FindHost(es, names[0]);
    if e.None? || |names| == 1 then e
    else if e.value.HDir? then HostAt(e.value.entries, names[1..])
    else None
  }

  predicate Plain(names: seq<Name>) { names != [] && forall n | n in names :: !IsDots(Key(n)) }

  /** The inode that was found is what the host shows: a file with its bytes, or a directory. */
  ghost predicate ShownAs(s: Store, found: Option<nat>, h: Option<Host>) {
    && (found.Some? <==> h.Some?)
    && (h.Some? ==>
          found.value < |s.ino| && s.ino[found.value].size <= MAXBYTES
          && if h.value.HFile? then s.ino[found.value].typ == T_FILE
             && FileSystem.Contents(s, found.value) == Flat(h.value.runs)
             else s.ino[found.value].typ == T_DIR)
  }

  lemma {:induction false} FoundHost(es: seq<Host>, name: Name)
    ensures FindHost(es, name).Some? <==> Key(name) in CutNames(es)
    ensures FindHost(es, name).Some? ==>
              FindHost(es, name).value in es && !IsDots(FindHost(es, name).value.name)
              && Key(FindHost(es, name).value.name) == Key(name)
  {
    hide Key;
    if es != [] { FoundHost(es[..|es| - 1], name); }
  }

  /** The child with the name, where names are apart, comes from the entry with the name. */
  lemma {:induction false} KidIsHost(nodes: Nodes, n: nat, cur: nat, kids: seq<Kid>, es: seq<Host>, j: nat, name: Name)
    requires Mirrors(nodes, n, cur, kids, es) && j < |kids| && kids[j].name == Key(name) && DistinctNames(kids)
    ensures FindHost(es, name).Some? && kids[j].inum in nodes
    ensures MirrorsNode(nodes, n, cur, kids[j].inum, FindHost(es, name).value)
    decreases |es|
  {
    hide Key;
    var last, rest := es[|es| - 1], es[..|es| - 1];
    if IsDots(last.name) {
      KidIsHost(nodes, n, cur, kids, rest, j, name);
    } else if j < |kids| - 1 {
      assert kids[j].name != kids[|kids| - 1].name;
      KidIsHost(nodes, n, cur, kids[..|kids| - 1], rest, j, name);
    }
  }

  /** One element of a path: the directory of the image has the name exactly when the listing has. */
  lemma Element(w: Made, cur: nat, es: seq<Host>, name: Name)
    requires Built(w) && cur in w.nodes && w.nodes[cur].Dir? && Mirrors(w.nodes, w.fi, cur, w.nodes[cur].kids, es)
    requires Apart(CutNames(es)) && !IsDots(Key(name))
    ensures FsNamex.Has(w.s, cur, name) <==> FindHost(es, name).Some?
    ensures FsNamex.Has(w.s, cur, name) ==>
              var k := FsContents.Dir(w.s, cur)[Key(name)];
              k in w.nodes && k < |w.s.ino| && MirrorsNode(w.nodes, w.fi, cur, k, FindHost(es, name).value)
  {
    hide Built, FsContents.Dir, FsContents.DirOk, Mirrors, CutNames, Key, MirrorsNode, FindHost, DistinctNames, AllKids;
    hide Lists, Apart;
    DistinctApart(w.nodes, w.fi, cur, w.nodes[cur].kids, es);
    FoundHost(es, name);
    KidsThere(w, cur);
    BuiltDir(w, cur);
    DirShape(w, cur);
    if Key(name) in FsContents.Dir(w.s, cur) { ElementFound(w, cur, es, name); }
    if Key(name) in CutNames(es) { ElementThere(w, cur, es, name); }
  }

  lemma ElementFound(w: Made, cur: nat, es: seq<Host>, name: Name)
    requires Built(w) && cur in w.nodes && w.nodes[cur].Dir? && Mirrors(w.nodes, w.fi, cur, w.nodes[cur].kids, es)
    requires DistinctNames(w.nodes[cur].kids) && !IsDots(Key(name)) && FsNamex.IsDir(w.s, cur)
    requires Lists(FsContents.Dir(w.s, cur), AllKids(cur, w.nodes[cur])) && Key(name) in FsContents.Dir(w.s, cur)
    ensures FindHost(es, name).Some?
    ensures var k := FsContents.Dir(w.s, cur)[Key(name)];
            k in w.nodes && k < |w.s.ino| && MirrorsNode(w.nodes, w.fi, cur, k, FindHost(es, name).value)
  {
    hide Built, FsContents.Dir, AllKids, Mirrors, CutNames, Key, MirrorsNode, FindHost, DistinctNames;
    KidsThere(w, cur);
    var own, kids := w.nodes[cur].kids, AllKids(cur, w.nodes[cur]);
    var n: nat :| n < |kids| && kids[n].name == Key(name);
    assert n >= 2;
    assert kids[2..][n - 2] == own[n - 2];
    KidIsHost(w.nodes, w.fi, cur, own, es, n - 2, name);
    KidFacts(w, cur, n);
    KidRange(w, kids[n].inum);
  }

  lemma ElementThere(w: Made, cur: nat, es: seq<Host>, name: Name)
    requires Built(w) && cur in w.nodes && w.nodes[cur].Dir? && Mirrors(w.nodes, w.fi, cur, w.nodes[cur].kids, es)
    requires FsNamex.IsDir(w.s, cur) && Lists(FsContents.Dir(w.s, cur), AllKids(cur, w.nodes[cur]))
    requires Key(name) in CutNames(es)
    ensures Key(name) in FsContents.Dir(w.s, cur)
  {
    hide Built, FsContents.Dir, AllKids, Mirrors, CutNames, Key, FsNamex.IsDir;
    var own, kids := w.nodes[cur].kids, AllKids(cur, w.nodes[cur]);
    var j := KidNamed(w.nodes, w.fi, cur, own, es, Key(name));
    KidsThere(w, cur);
    assert kids[2..][j] == kids[j + 2];
  }

  lemma KidNamed(nodes: Nodes, n: nat, cur: nat, kids: seq<Kid>, es: seq<Host>, name: Name) returns (j: nat)
    requires Mirrors(nodes, n, cur, kids, es) && name in CutNames(es)
    ensures j < |kids| && kids[j].name == name
  {
    hide Mirrors, CutNames;
    KidsCut(nodes, n, cur, kids, es);
    j :| j < |CutNames(es)| && CutNames(es)[j] == name;
  }

  lemma DirShape(w: Made, d: nat)
    requires Built(w) && d in w.nodes && w.nodes[d].Dir?
    ensures FsNamex.IsDir(w.s, d)
  {
    hide Built, Tidy;
    var n := DirStored(w, d);
    TidySize(w.s, d);
  }

  lemma TidySize(s: Store, i: nat)
    requires i < |s.ino| && Tidy(s, i)
    ensures s.ino[i].size <= MAXBYTES
  {}

  lemma KidRange(w: Made, k: nat)
    requires Built(w) && k < w.fi
    ensures k < |w.s.ino|
  {
    hide Built;
    ShapeBuilt(w);
  }

  /** A node is shown as what it mirrors. */
  lemma NodeShown(w: Made, cur: nat, k: nat, e: Host)
    requires Built(w) && k in w.nodes && k < |w.s.ino| && MirrorsNode(w.nodes, w.fi, cur, k, e)
    ensures ShownAs(w.s, Some(k), Some(e))
  {
    hide Built, FileSystem.Contents, Flat;
    DirTypes(w, k);
    if e.HFile? { FileShown(w, k); } else { DirShape(w, k); }
  }

  lemma FileShown(w: Made, k: nat)
    requires Built(w) && k in w.nodes && w.nodes[k].File? && k < |w.s.ino|
    ensures w.s.ino[k].typ == T_FILE && w.s.ino[k].size <= MAXBYTES && FileSystem.Contents(w.s, k) == w.nodes[k].data
  {
    hide Allotted, RecordsOk, BitsBelow, SuperOk, Tree, Store.ByteAt, Filled;
    assert Stores(w.s, k, w.nodes[k]);
  }

  /** Where names are apart, a walk from a directory of the image finds just what the host has there:
      the bytes of the file, or a directory. */
  lemma {:induction false} WalkHost(w: Made, cur: nat, es: seq<Host>, names: seq<Name>)
    requires Built(w) && cur in w.nodes && w.nodes[cur].Dir? && Mirrors(w.nodes, w.fi, cur, w.nodes[cur].kids, es)
    requires TreeApart(es) && Plain(names)
    ensures ShownAs(w.s, FsNamex.Walk(w.s, cur, names), HostAt(es, names))
    decreases |names|
  {
    hide Built, Mirrors, Key, CutNames, Apart, FindHost, FsContents.Dir, ShownAs;
    assert names[0] in names;
    Element(w, cur, es, names[0]);
    FoundHost(es, names[0]);
    if FsNamex.Has(w.s, cur, names[0]) {
      var k, e := FsContents.Dir(w.s, cur)[Key(names[0])], FindHost(es, names[0]).value;
      NodeShown(w, cur, k, e);
      if |names| == 1 {
        assert names[1..] == [];
      } else {
        assert names[1] in names && forall n | n in names[1..] :: n in names;
        assert HostApart(e);
        if e.HDir? { WalkHost(w, k, e.entries, names[1..]); } else { NoWay(w, k, cur, e, names[1..]); }
      }
    } else {
      NothingShown(w.s);
    }
  }

  lemma NothingShown(s: Store)
    ensures ShownAs(s, None, None)
  {}

  /** Nothing is found below a file or a directory that the host could not list. */
  lemma NoWay(w: Made, k: nat, cur: nat, e: Host, names: seq<Name>)
    requires Built(w) && k in w.nodes && k < |w.s.ino| && MirrorsNode(w.nodes, w.fi, cur, k, e) && !e.HDir?
        && Plain(names)
    ensures FsNamex.Walk(w.s, k, names) == None && ShownAs(w.s, None, None)
  {
    assert names[0] in names;
    DirTypes(w, k);
    if e.HShut? {
      NoHosts(w.nodes, w.fi, k);
      Element(w, k, [], names[0]);
    }
  }
}
