/** The root directory: what filling and clearing a slot does to the maps it is read as. */
module FsDirectory {
  import opened Memory
  import opened FsState
  import opened FsInvariant
  import opened FsOperations

  /** Two live entries share neither name nor inode. */
  ghost predicate Pairwise(d: seq<DirEntry>) {
    forall i, j :: 0 <= i < j < |d| && Live(d[i]) && Live(d[j]) ==>
      d[i].inumber != d[j].inumber && Name(d[i]) != Name(d[j])
  }

  lemma PairwiseSlots(d: seq<DirEntry>)
    ensures Pairwise(d) <==> SlotsDistinct(d)
  {
    if Pairwise(d) {
      forall i | 0 <= i < |d| && Live(d[i])
        ensures NameSlot(d, Name(d[i])) == i && InodeSlot(d, d[i].inumber) == i
      {
        var n, k := NameSlot(d, Name(d[i])), InodeSlot(d, d[i].inumber);
        assert n <= i && k <= i;
      }
    }
    if SlotsDistinct(d) {
      forall i, j | 0 <= i < j < |d| && Live(d[i]) && Live(d[j])
        ensures d[i].inumber != d[j].inumber && Name(d[i]) != Name(d[j])
      {
        assert NameSlot(d, Name(d[i])) == i && NameSlot(d, Name(d[j])) == j;
        assert InodeSlot(d, d[i].inumber) == i && InodeSlot(d, d[j].inumber) == j;
      }
    }
  }

  /** The maps hold exactly the live entries. */
  lemma MapsOfSlot(d: seq<DirEntry>, i: nat)
    requires SlotsDistinct(d) && i < |d| && Live(d[i])
    ensures Name(d[i]) in NameMap(d) && NameMap(d)[Name(d[i])] == d[i].inumber
    ensures d[i].inumber in InodeMap(d) && InodeMap(d)[d[i].inumber] == Name(d[i])
  {
    assert i in LiveSlots(d);
  }

  lemma SlotOfName(d: seq<DirEntry>, n: CString) returns (i: nat)
    requires n in NameMap(d)
    ensures i < |d| && Live(d[i]) && Name(d[i]) == n
  {
    i :| i in LiveSlots(d) && Name(d[i]) == n;
  }

  lemma SlotOfInode(d: seq<DirEntry>, k: int) returns (i: nat)
    requires k in InodeMap(d)
    ensures i < |d| && Live(d[i]) && d[i].inumber == k
  {
    i :| i in LiveSlots(d) && d[i].inumber == k;
  }

  /** The maps are determined by the live entries. */
  lemma MapsAre(d: seq<DirEntry>, names: Names, owners: Owners)
    requires SlotsDistinct(d)
    requires forall i :: 0 <= i < |d| && Live(d[i]) ==>
      && Name(d[i]) in names && names[Name(d[i])] == d[i].inumber
      && d[i].inumber in owners && owners[d[i].inumber] == Name(d[i])
    requires forall n :: n in names ==> exists i :: 0 <= i < |d| && Live(d[i]) && Name(d[i]) == n
    requires forall k :: k in owners ==> exists i :: 0 <= i < |d| && Live(d[i]) && d[i].inumber == k
    ensures NameMap(d) == names && InodeMap(d) == owners
  {
    hide SlotsDistinct;
    hide NameMap;
    hide InodeMap;
    forall n
      ensures n in NameMap(d) <==> n in names
      ensures n in names ==> NameMap(d)[n] == names[n]
    {
      if n in NameMap(d) {
        var i := SlotOfName(d, n);
      }
      if n in names {
        var i :| 0 <= i < |d| && Live(d[i]) && Name(d[i]) == n;
        MapsOfSlot(d, i);
      }
    }
    forall k
      ensures k in InodeMap(d) <==> k in owners
      ensures k in owners ==> InodeMap(d)[k] == owners[k]
    {
      if k in InodeMap(d) {
        var i := SlotOfInode(d, k);
      }
      if k in owners {
        var i :| 0 <= i < |d| && Live(d[i]) && d[i].inumber == k;
        MapsOfSlot(d, i);
      }
    }
  }

  /** Filling the first free slot adds one name. */
  lemma AddEntryMaps(d: seq<DirEntry>, e: DirEntry)
    requires DirOk(d) && FreeSlot(d) < |d|
    requires Live(e) && 0 < |Name(e)| < MAX_FILE_NAME && Name(e) !in NameMap(d) && e.inumber !in InodeMap(d)
    ensures var d' := d[FreeSlot(d) := e];
            && DirOk(d')
            && NameMap(d') == NameMap(d)[Name(e) := e.inumber]
            && InodeMap(d') == InodeMap(d)[e.inumber := Name(e)]
  {
    hide SlotsDistinct;
    hide NameMap;
    hide InodeMap;
    hide FreeSlot;
    AddKeepsDistinct(d, FreeSlot(d), e);
    AddedMaps(d, FreeSlot(d), e);
  }

  lemma AddKeepsDistinct(d: seq<DirEntry>, slot: nat, e: DirEntry)
    requires SlotsDistinct(d) && slot < |d| && !Live(d[slot]) && Live(e)
    requires Name(e) !in NameMap(d) && e.inumber !in InodeMap(d)
    ensures SlotsDistinct(d[slot := e])
  {
    PairwiseSlots(d);
    PairwiseSlots(d[slot := e]);
    hide SlotsDistinct;
    forall i | 0 <= i < |d| && Live(d[i])
      ensures d[i].inumber != e.inumber && Name(d[i]) != Name(e)
    {
      MapsOfSlot(d, i);
    }
    hide NameMap;
    hide InodeMap;
    assert Pairwise(d[slot := e]);
  }

  lemma AddedMaps(d: seq<DirEntry>, slot: nat, e: DirEntry)
    requires SlotsDistinct(d) && slot < |d| && !Live(d[slot]) && Live(e)
    requires Name(e) !in NameMap(d) && e.inumber !in InodeMap(d)
    requires SlotsDistinct(d[slot := e])
    ensures NameMap(d[slot := e]) == NameMap(d)[Name(e) := e.inumber]
    ensures InodeMap(d[slot := e]) == InodeMap(d)[e.inumber := Name(e)]
  {
    hide SlotsDistinct;
    hide NameMap;
    hide InodeMap;
    var d' := d[slot := e];
    var names, owners := NameMap(d)[Name(e) := e.inumber], InodeMap(d)[e.inumber := Name(e)];
    forall i | 0 <= i < |d'| && Live(d'[i])
      ensures Name(d'[i]) in names && names[Name(d'[i])] == d'[i].inumber
      ensures d'[i].inumber in owners && owners[d'[i].inumber] == Name(d'[i])
    {
      if i != slot {
        MapsOfSlot(d, i);
      }
    }
    forall n | n in names
      ensures exists i :: 0 <= i < |d'| && Live(d'[i]) && Name(d'[i]) == n
    {
      if n == Name(e) {
        assert d'[slot] == e;
      } else {
        var i := SlotOfName(d, n);
        assert d'[i] == d[i];
      }
    }
    forall k | k in owners
      ensures exists i :: 0 <= i < |d'| && Live(d'[i]) && d'[i].inumber == k
    {
      if k == e.inumber {
        assert d'[slot] == e;
      } else {
        var i := SlotOfInode(d, k);
        assert d'[i] == d[i];
      }
    }
    MapsAre(d', names, owners);
  }

  /** The entry clear_dir_entry leaves behind. */
  function Cleared(): (e: DirEntry)
    ensures IsEntry(e) && !Live(e) && Name(e) == []
  {
    DirEntry(Zeros(MAX_FILE_NAME), -1)
  }

  /** Clearing a live slot removes its name. */
  lemma ClearEntryMaps(d: seq<DirEntry>, slot: nat)
    requires DirOk(d) && slot < |d| && Live(d[slot])
    ensures var d' := d[slot := Cleared()];
            && DirOk(d')
            && NameMap(d') == NameMap(d) - {Name(d[slot])}
            && InodeMap(d') == InodeMap(d) - {d[slot].inumber}
  {
    var d' := d[slot := Cleared()];
    PairwiseSlots(d);
    assert Pairwise(d');
    PairwiseSlots(d');
    assert DirOk(d');
    ClearedMaps(d, slot, Cleared());
  }

  lemma ClearedMaps(d: seq<DirEntry>, slot: nat, c: DirEntry)
    requires SlotsDistinct(d) && Pairwise(d) && slot < |d| && Live(d[slot]) && !Live(c)
    requires SlotsDistinct(d[slot := c])
    ensures NameMap(d[slot := c]) == NameMap(d) - {Name(d[slot])}
    ensures InodeMap(d[slot := c]) == InodeMap(d) - {d[slot].inumber}
  {
    hide SlotsDistinct;
    hide NameMap;
    hide InodeMap;
    var d' := d[slot := c];
    var names, owners := NameMap(d) - {Name(d[slot])}, InodeMap(d) - {d[slot].inumber};
    forall i | 0 <= i < |d'| && Live(d'[i])
      ensures Name(d'[i]) in names && names[Name(d'[i])] == d'[i].inumber
      ensures d'[i].inumber in owners && owners[d'[i].inumber] == Name(d'[i])
    {
      MapsOfSlot(d, i);
    }
    forall n | n in names
      ensures exists i :: 0 <= i < |d'| && Live(d'[i]) && Name(d'[i]) == n
    {
      var i := SlotOfName(d, n);
      assert d'[i] == d[i];
    }
    forall k | k in owners
      ensures exists i :: 0 <= i < |d'| && Live(d'[i]) && d'[i].inumber == k
    {
      var i := SlotOfInode(d, k);
      assert d'[i] == d[i];
    }
    MapsAre(d', names, owners);
  }

  /** clear_dir_entry, which does not look at d_inumber, stops at the entry find_in_dir found:
      slots that were never used, whose names are whatever malloc returned, all come later. */
  lemma ClearHitsFound(d: seq<DirEntry>, name: CString)
    requires DirOk(d) && (forall i :: 0 <= i < |d| ==> |d[i].name| == MAX_FILE_NAME)
    requires name in NameMap(d)
    ensures ClearSlot(d, name) == FindSlot(d, name) == NameSlot(d, name) < |d|
  {
    FindIsNameSlot(d, name);
    NameMapIs(d, name);
    var found, cleared := NameSlot(d, name), ClearSlot(d, name);
    assert cleared <= found;
    if cleared < found {
      assert false;
    }
  }
}
