/**
 Page tables are linked lists of entries searched in order; here each is the
 sequence of its entries. All tables together agree with one map from (address
 space, page) to the page's place.
 */
module PageTable {

  import opened Paging

  datatype Pte = Pte(vpage: nat, loc: Loc)

  ghost predicate HasEntry(t: seq<Pte>, vp: nat) { exists i :: 0 <= i < |t| && t[i].vpage == vp }

  /** The table lists exactly the pages of the address space, each once. */
  ghost predicate TableOk(t: seq<Pte>, pages: map<Key, Loc>, space: nat) {
    && (forall i, j :: 0 <= i < j < |t| ==> t[i].vpage != t[j].vpage)
    && (forall i :: 0 <= i < |t| ==> Key(space, t[i].vpage) in pages && pages[Key(space, t[i].vpage)] == t[i].loc)
    && (forall vp {:trigger HasEntry(t, vp)} :: Key(space, vp) in pages ==> HasEntry(t, vp))
  }

  ghost predicate Agree(tables: map<nat, seq<Pte>>, pages: map<Key, Loc>) {
    && (forall a {:trigger TableOk(tables[a], pages, a)} :: a in tables ==> TableOk(tables[a], pages, a))
    && (forall k :: k in pages ==> k.space in tables)
  }

  /** The search loop shared by vm_fault, evict_page and sys_sbrk. */
  method Find(t: seq<Pte>, vp: nat) returns (i: nat)
    ensures i <= |t| && (i < |t| <==> HasEntry(t, vp))
    ensures i < |t| ==> t[i].vpage == vp
  {
    i := 0;
    while i < |t| && t[i].vpage != vp
      invariant i <= |t| && forall j :: 0 <= j < i ==> t[j].vpage != vp
    {
      i := i + 1;
    }
  }

  lemma Found(tables: map<nat, seq<Pte>>, pages: map<Key, Loc>, space: nat, vp: nat)
    requires Agree(tables, pages) && space in tables
    ensures HasEntry(tables[space], vp) <==> Key(space, vp) in pages
  {
    assert TableOk(tables[space], pages, space);
  }

  lemma EntryAt(tables: map<nat, seq<Pte>>, pages: map<Key, Loc>, space: nat, i: nat)
    requires Agree(tables, pages) && space in tables && i < |tables[space]|
    ensures Key(space, tables[space][i].vpage) in pages
    ensures pages[Key(space, tables[space][i].vpage)] == tables[space][i].loc
  {
    assert TableOk(tables[space], pages, space);
  }

  lemma OtherTable(t: seq<Pte>, pages: map<Key, Loc>, pages2: map<Key, Loc>, space: nat)
    requires TableOk(t, pages, space)
    requires forall vp: nat :: Key(space, vp) in pages2 <==> Key(space, vp) in pages
    requires forall vp: nat :: Key(space, vp) in pages ==> pages2[Key(space, vp)] == pages[Key(space, vp)]
    ensures TableOk(t, pages2, space)
  {
  }

  lemma AgreeAppend(tables: map<nat, seq<Pte>>, pages: map<Key, Loc>, space: nat, vp: nat, loc: Loc)
    requires Agree(tables, pages) && space in tables && Key(space, vp) !in pages
    ensures Agree(tables[space := tables[space] + [Pte(vp, loc)]], pages[Key(space, vp) := loc])
  {
    var t, t2, pages2 := tables[space], tables[space] + [Pte(vp, loc)], pages[Key(space, vp) := loc];
    assert TableOk(t, pages, space);
    forall vp2: nat | Key(space, vp2) in pages2 ensures HasEntry(t2, vp2) {
      if vp2 == vp { assert t2[|t|].vpage == vp; } else {
        assert HasEntry(t, vp2);
        var i :| 0 <= i < |t| && t[i].vpage == vp2;
        assert t2[i].vpage == vp2;
      }
    }
    forall a | a in tables && a != space ensures TableOk(tables[a], pages2, a) {
      OtherTable(tables[a], pages, pages2, a);
    }
  }

  lemma AgreeReplace(tables: map<nat, seq<Pte>>, pages: map<Key, Loc>, space: nat, i: nat, loc: Loc)
    requires Agree(tables, pages) && space in tables && i < |tables[space]|
    ensures Agree(tables[space := tables[space][i := Pte(tables[space][i].vpage, loc)]],
                  pages[Key(space, tables[space][i].vpage) := loc])
  {
    var t := tables[space];
    assert TableOk(t, pages, space);
    var t2, pages2 := t[i := Pte(t[i].vpage, loc)], pages[Key(space, t[i].vpage) := loc];
    forall vp2: nat | Key(space, vp2) in pages2 ensures HasEntry(t2, vp2) {
      assert HasEntry(t, vp2);
      var j :| 0 <= j < |t| && t[j].vpage == vp2;
      assert t2[j].vpage == vp2;
    }
    forall a | a in tables && a != space ensures TableOk(tables[a], pages2, a) {
      OtherTable(tables[a], pages, pages2, a);
    }
  }

  lemma AgreeRemove(tables: map<nat, seq<Pte>>, pages: map<Key, Loc>, space: nat, i: nat)
    requires Agree(tables, pages) && space in tables && i < |tables[space]|
    ensures Agree(tables[space := tables[space][..i] + tables[space][i + 1..]],
                  pages - {Key(space, tables[space][i].vpage)})
  {
    var t := tables[space];
    assert TableOk(t, pages, space);
    var t2, pages2 := t[..i] + t[i + 1..], pages - {Key(space, t[i].vpage)};
    assert TableOk(t2, pages2, space) by {
      assert forall j :: 0 <= j < |t2| ==> t2[j] == t[if j < i then j else j + 1];
      forall vp2: nat | Key(space, vp2) in pages2 ensures HasEntry(t2, vp2) {
        assert HasEntry(t, vp2);
        var j :| 0 <= j < |t| && t[j].vpage == vp2;
        assert t2[if j < i then j else j - 1].vpage == vp2;
      }
    }
    forall a | a in tables && a != space ensures TableOk(tables[a], pages2, a) {
      OtherTable(tables[a], pages, pages2, a);
    }
  }

  lemma AgreeNew(tables: map<nat, seq<Pte>>, pages: map<Key, Loc>, space: nat)
    requires Agree(tables, pages) && space !in tables
    ensures Agree(tables[space := []], pages)
  {
  }

  lemma AgreeGone(tables: map<nat, seq<Pte>>, pages: map<Key, Loc>, space: nat)
    requires Agree(tables, pages) && space in tables && tables[space] == []
    ensures Agree(tables - {space}, pages)
    ensures forall k :: k in pages ==> k.space != space
  {
    forall k | k in pages ensures k.space != space {
      if k.space == space {
        Found(tables, pages, space, k.vpage);
      }
    }
  }

  ghost function PagesOf(pages: map<Key, Loc>, space: nat): set<Key> { set k | k in pages && k.space == space }

  lemma TableSize(tables: map<nat, seq<Pte>>, pages: map<Key, Loc>, space: nat)
    requires Agree(tables, pages) && space in tables
    ensures |tables[space]| == |PagesOf(pages, space)|
  {
    var t := tables[space];
    assert TableOk(t, pages, space);
    KeysSize(t, space, |t|);
    assert PagesOf(pages, space) == KeysOf(t, space, |t|) by {
      forall k: Key | k in PagesOf(pages, space) ensures k in KeysOf(t, space, |t|) {
        assert k == Key(space, k.vpage) && HasEntry(t, k.vpage);
        var i :| 0 <= i < |t| && t[i].vpage == k.vpage;
        assert k == Key(space, t[i].vpage);
      }
    }
  }

  ghost function KeysOf(t: seq<Pte>, space: nat, n: nat): set<Key>
    requires n <= |t|
  {
    set i | 0 <= i < n :: Key(space, t[i].vpage)
  }

  lemma {:induction false} KeysSize(t: seq<Pte>, space: nat, n: nat)
    requires n <= |t| && forall i, j :: 0 <= i < j < |t| ==> t[i].vpage != t[j].vpage
    ensures |KeysOf(t, space, n)| == n
  {
    if n > 0 {
      KeysSize(t, space, n - 1);
      assert KeysOf(t, space, n) == KeysOf(t, space, n - 1) + {Key(space, t[n - 1].vpage)};
    }
  }
}
