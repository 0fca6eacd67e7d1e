/** What writing one entry does to the tree of tables and to every translation. */
module Sv39Tree {
  import opened Prelude
  import opened Sv39

  /** `v` and `w` take the same way down to and including the entry at `level`. */
  predicate SameWay(v: nat, w: nat, level: nat) {
    PathTo(v, level) == PathTo(w, level) && Index(v, level) == Index(w, level)
  }

  /** The entry for `v` at `level` in the tree, if the tree has a table there. */
  ghost function TreeEntry(tables: Tables, node: map<Path, nat>, v: nat, level: nat): Option<Pte>
    requires forall p | p in node :: node[p] in tables
  {
    if PathTo(v, level) in node then Some(tables[node[PathTo(v, level)]][Index(v, level)]) else None
  }

  /** In the part of the tree it owns, a walk reads exactly the tree's entries. */
  lemma {:induction false} EntryInTree(tables: Tables, node: map<Path, nat>, lim: nat, v: nat, level: nat)
    requires TreeOk(tables, node, lim) && Index(v, 0) < lim && level < SV39_LEVELS
    ensures EntryAt(tables, node[Root], v, level) == TreeEntry(tables, node, v, level)
    decreases level
  {
    if level > 0 {
      EntryInTree(tables, node, lim, v, level - 1);
      if level == 1 {
        assert EdgeOk(tables[node[Root]][Index(v, 0)], node, Mid(Index(v, 0)));
      } else {
        if Mid(Index(v, 0)) in node {
          assert EdgeOk(tables[node[Mid(Index(v, 0))]][Index(v, 1)], node, Low(Index(v, 0), Index(v, 1)));
        }
      }
    }
  }

  function PutEntry(tables: Tables, frame: nat, i: nat, pte: Pte): (r: Tables)
    requires frame in tables && i < PTE_PER_TABLE
    ensures r.Keys == tables.Keys
  {
    tables[frame := tables[frame][i := pte]]
  }

  // ---- writing a leaf ------------------------------------------------------------------

  /** Replacing one non-pointer by another keeps the tree. */
  lemma PutLeafTree(tables: Tables, node: map<Path, nat>, lim: nat, v: nat, level: nat, pte: Pte)
    requires TreeOk(tables, node, lim) && Index(v, 0) < lim && level < SV39_LEVELS && PathTo(v, level) in node
    requires level == 2 || (!pte.IsPointer() && !tables[node[PathTo(v, level)]][Index(v, level)].IsPointer())
    ensures TreeOk(PutEntry(tables, node[PathTo(v, level)], Index(v, level), pte), node, lim)
  {
    var frame, i := node[PathTo(v, level)], Index(v, level);
    var tables' := PutEntry(tables, frame, i, pte);
    forall k: nat | k < lim && k < PTE_PER_TABLE ensures EdgeOk(tables'[node[Root]][k], node, Mid(k)) {
      assert EdgeOk(tables[node[Root]][k], node, Mid(k));
      assert level != 0 ==> node[Root] != frame;
    }
    forall k: nat, j: nat | Mid(k) in node && j < PTE_PER_TABLE
      ensures EdgeOk(tables'[node[Mid(k)]][j], node, Low(k, j))
    {
      assert EdgeOk(tables[node[Mid(k)]][j], node, Low(k, j));
      assert node[Mid(k)] == frame ==> Mid(k) == PathTo(v, level);
    }
  }

  /** ... and changes what walks read only where they pass that entry. */
  lemma PutLeafEntries(tables: Tables, node: map<Path, nat>, lim: nat, v: nat, level: nat, pte: Pte, w: nat, l: nat)
    requires TreeOk(tables, node, lim) && Index(v, 0) < lim && level < SV39_LEVELS && PathTo(v, level) in node
    requires level == 2 || (!pte.IsPointer() && !tables[node[PathTo(v, level)]][Index(v, level)].IsPointer())
    requires Index(w, 0) < lim && l < SV39_LEVELS
    ensures EntryAt(PutEntry(tables, node[PathTo(v, level)], Index(v, level), pte), node[Root], w, l) ==
            if l == level && SameWay(v, w, level) then Some(pte) else EntryAt(tables, node[Root], w, l)
  {
    var tables' := PutEntry(tables, node[PathTo(v, level)], Index(v, level), pte);
    PutLeafTree(tables, node, lim, v, level, pte);
    EntryInTree(tables, node, lim, w, l);
    EntryInTree(tables', node, lim, w, l);
    assert PathTo(w, l) in node && node[PathTo(w, l)] == node[PathTo(v, level)] ==> l == level;
  }

  // ---- adding a table ---------------------------------------------------------------------

  function Graft(tables: Tables, parent: nat, i: nat, f: nat): (r: Tables)
    requires parent in tables && f in tables && i < PTE_PER_TABLE
    ensures r.Keys == tables.Keys
  {
    PutEntry(tables[f := ZeroTable()], parent, i, Pte(f, POINTER_FLAGS))
  }

  ghost predicate CanGraft(tables: Tables, node: map<Path, nat>, lim: nat, v: nat, level: nat, f: nat) {
    && TreeOk(tables, node, lim) && Index(v, 0) < lim && level < 2 && PathTo(v, level) in node
    && !tables[node[PathTo(v, level)]][Index(v, level)].flags.valid
    && f in tables && f !in node.Values
  }

  lemma GraftTree(tables: Tables, node: map<Path, nat>, lim: nat, v: nat, level: nat, f: nat)
    requires CanGraft(tables, node, lim, v, level, f)
    ensures PathTo(v, level + 1) !in node
    ensures TreeOk(Graft(tables, node[PathTo(v, level)], Index(v, level), f), node[PathTo(v, level + 1) := f], lim)
  {
    var parent, i, child := node[PathTo(v, level)], Index(v, level), PathTo(v, level + 1);
    var tables', node' := Graft(tables, parent, i, f), node[child := f];
    assert child !in node by {
      if level == 0 { assert EdgeOk(tables[node[Root]][i], node, Mid(i)); }
      else { assert EdgeOk(tables[node[Mid(Index(v, 0))]][i], node, Low(Index(v, 0), i)); }
    }
    forall p | p in node ensures node[p] != f { assert node[p] in node.Values; }
    forall k: nat | k < lim && k < PTE_PER_TABLE ensures EdgeOk(tables'[node'[Root]][k], node', Mid(k)) {
      assert EdgeOk(tables[node[Root]][k], node, Mid(k));
      assert level != 0 ==> node[Root] != parent;
    }
    forall k: nat, j: nat | Mid(k) in node' && j < PTE_PER_TABLE
      ensures EdgeOk(tables'[node'[Mid(k)]][j], node', Low(k, j))
    {
      if Mid(k) == child {
        assert Low(k, j) !in node;
      } else {
        assert EdgeOk(tables[node[Mid(k)]][j], node, Low(k, j));
        assert node[Mid(k)] == parent ==> Mid(k) == PathTo(v, level);
      }
    }
  }

  /** A new empty table changes no translation: where walks now pass into it, they read an invalid entry. */
  lemma GraftEntries(tables: Tables, node: map<Path, nat>, lim: nat, v: nat, level: nat, f: nat, w: nat, l: nat)
    requires CanGraft(tables, node, lim, v, level, f) && Index(w, 0) < lim && l < SV39_LEVELS
    ensures var new' := EntryAt(Graft(tables, node[PathTo(v, level)], Index(v, level), f), node[Root], w, l);
            var old' := EntryAt(tables, node[Root], w, l);
            if SameWay(v, w, level) && l == level then new' == Some(Pte(f, POINTER_FLAGS)) && old'.Some?
                && !old'.value.flags.valid
            else if SameWay(v, w, level) && l == level + 1 then new' == Some(EMPTY) && old'.None?
            else new' == old'
  {
    var parent, i, child := node[PathTo(v, level)], Index(v, level), PathTo(v, level + 1);
    var tables', node' := Graft(tables, parent, i, f), node[child := f];
    GraftTree(tables, node, lim, v, level, f);
    assert node'[Root] == node[Root];
    EntryInTree(tables, node, lim, w, l);
    EntryInTree(tables', node', lim, w, l);
    assert PathTo(w, l) in node ==> node[PathTo(w, l)] in node.Values;
    assert PathTo(w, l) in node && node[PathTo(w, l)] == parent ==> PathTo(w, l) == PathTo(v, level);
    assert PathTo(w, l) == child <==> l == level + 1 && SameWay(v, w, level);
  }

  lemma GraftViews(tables: Tables, node: map<Path, nat>, lim: nat, v: nat, level: nat, f: nat, w: nat)
    requires CanGraft(tables, node, lim, v, level, f) && Index(w, 0) < lim
    ensures var tables' := Graft(tables, node[PathTo(v, level)], Index(v, level), f);
            && HwWalk(tables', node[Root], w) == HwWalk(tables, node[Root], w)
            && Translate(tables', node[Root], w) == Translate(tables, node[Root], w)
  {
    var tables' := Graft(tables, node[PathTo(v, level)], Index(v, level), f);
    GraftEntries(tables, node, lim, v, level, f, w, 0);
    GraftEntries(tables, node, lim, v, level, f, w, 1);
    GraftEntries(tables, node, lim, v, level, f, w, 2);
    HwByEntries(tables, node[Root], w);
    HwByEntries(tables', node[Root], w);
    SlotByEntries(tables, node[Root], w);
    SlotByEntries(tables', node[Root], w);
  }

  // ---- tables that belong to someone else ------------------------------------------------------

  /** Walks through the root entries from `lim` on stay inside `shared`. */
  ghost predicate UpperIn(tables: Tables, root: nat, lim: nat, shared: set<nat>) {
    && root in tables
    && (forall i: nat | lim <= i < PTE_PER_TABLE :: LeadsInto(tables, tables[root][i], shared))
    && (forall f, j: nat | f in shared && f in tables && j < PTE_PER_TABLE && SharedMid(tables, root, lim, f) ::
          LeadsInto(tables, tables[f][j], shared))
  }

  predicate LeadsInto(tables: Tables, pte: Pte, shared: set<nat>) {
    pte.IsPointer() ==> pte.ppn in shared && pte.ppn in tables
  }

  /** `f` is a second-level table under one of the root entries from `lim` on. */
  ghost predicate SharedMid(tables: Tables, root: nat, lim: nat, f: nat)
    requires root in tables
  {
    exists i: nat | lim <= i < PTE_PER_TABLE :: tables[root][i].IsPointer() && tables[root][i].ppn == f
  }

  /** Nothing read above `lim` changes if the upper root entries and the shared tables do not. */
  lemma UpperUnchanged(tables: Tables, tables': Tables, root: nat, lim: nat, shared: set<nat>)
    requires UpperIn(tables, root, lim, shared) && root in tables'
    requires forall i: nat | lim <= i < PTE_PER_TABLE :: tables'[root][i] == tables[root][i]
    requires tables'.Keys == tables.Keys && forall f | f in shared && f in tables :: tables'[f] == tables[f]
    ensures UpperIn(tables', root, lim, shared)
    ensures forall w, l: nat | Index(w, 0) >= lim && l < SV39_LEVELS ::
              EntryAt(tables', root, w, l) == EntryAt(tables, root, w, l)
  {
    forall i: nat | lim <= i < PTE_PER_TABLE ensures LeadsInto(tables', tables'[root][i], shared) {
      assert LeadsInto(tables, tables[root][i], shared);
    }
    forall f | SharedMid(tables', root, lim, f) ensures SharedMid(tables, root, lim, f) {
      var i: nat :| lim <= i < PTE_PER_TABLE && tables'[root][i].IsPointer() && tables'[root][i].ppn == f;
      assert tables[root][i].IsPointer() && tables[root][i].ppn == f;
    }
    forall f, j: nat | f in shared && f in tables' && j < PTE_PER_TABLE && SharedMid(tables', root, lim, f)
      ensures LeadsInto(tables', tables'[f][j], shared)
    {
      assert LeadsInto(tables, tables[f][j], shared);
    }
    forall w, l: nat | Index(w, 0) >= lim && l < SV39_LEVELS
      ensures EntryAt(tables', root, w, l) == EntryAt(tables, root, w, l)
    {
      UpperEntry(tables, tables', root, lim, shared, w, l);
    }
  }

  lemma {:induction false} UpperEntry(tables: Tables, tables': Tables, root: nat, lim: nat, shared: set<nat>, w: nat,
                                      l: nat)
    requires UpperIn(tables, root, lim, shared) && root in tables' && Index(w, 0) >= lim && l < SV39_LEVELS
    requires forall i: nat | lim <= i < PTE_PER_TABLE :: tables'[root][i] == tables[root][i]
    requires tables'.Keys == tables.Keys && forall f | f in shared && f in tables :: tables'[f] == tables[f]
    ensures EntryAt(tables', root, w, l) == EntryAt(tables, root, w, l)
    decreases l
  {
    if l > 0 {
      UpperEntry(tables, tables', root, lim, shared, w, l - 1);
      var i := Index(w, 0);
      assert LeadsInto(tables, tables[root][i], shared);
      if l == 2 && tables[root][i].IsPointer() {
        assert SharedMid(tables, root, lim, tables[root][i].ppn);
        assert LeadsInto(tables, tables[tables[root][i].ppn][Index(w, 1)], shared);
      }
    }
  }
}
