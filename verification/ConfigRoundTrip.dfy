/** A configuration page saved and read back, on the objects themselves. */
module ConfigRoundTrip {
  import opened Common
  import opened ByteType
  import opened Config
  import opened PageBytes
  import opened ConfigObjects

  /** The items in front of those of store `s`, and those behind. */
  lemma {:induction false} ItemsOfStore(stores: seq<ConfigStore>, s: nat)
    returns (before: seq<ConfigItem>, behind: seq<ConfigItem>)
    requires s < |stores|
    ensures AllItems(stores) == before + (stores[s].items + behind)
  {
    if s == 0 {
      before, behind := [], AllItems(stores[1..]);
      assert before + (stores[s].items + behind) == stores[s].items + behind;
    } else {
      var front;
      front, behind := ItemsOfStore(stores[1..], s - 1);
      before := stores[0].items + front;
      Regroup(stores[0].items, front, stores[s].items + behind);
    }
  }

  /** The values of all items, those of store `s` from `from` on. */
  lemma ViewsOfStore(stores: seq<ConfigStore>, s: nat) returns (from: nat)
    requires s < |stores|
    ensures from + |stores[s].items| <= |Views(AllItems(stores))|
    ensures forall i :: 0 <= i < |stores[s].items| ==> Views(AllItems(stores))[from + i] == stores[s].items[i].View()
  {
    var before, behind := ItemsOfStore(stores, s);
    from := |before|;
    forall i | 0 <= i < |stores[s].items|
      ensures Views(AllItems(stores))[from + i] == stores[s].items[i].View()
    {
      ViewAt(AllItems(stores), from + i);
    }
  }

  /** All items of a page can be saved, with a byte to spare in its block. */
  ghost predicate CanSave(page: ConfigPage)
    reads AllItems(page.stores)
  {
    var all := Views(AllItems(page.stores));
    && HEADER < page.mem.Length && page.id < 0x1_0000_0000
    && AllStorable(all) && TextsShort(all) && DistinctIds(all)
    && |Records(all, 0)| < page.mem.Length - HEADER
  }

  /** The block holds all items, which can be stored, and has a byte to spare. */
  predicate Saved(page: seq<Byte>, all: seq<Item>) {
    && HEADER < |page| && AllStorable(all) && TextsShort(all) && DistinctIds(all)
    && |Records(all, 0)| < |page| - HEADER && HoldsAt(page, HEADER, Packed(Chunks(all), |page| - HEADER))
  }

  /** The items of a store are set to other values. */
  method Edit(store: ConfigStore, edits: seq<Item>)
    requires store.Valid() && |edits| == |store.items|
    requires forall i :: 0 <= i < |edits| ==> edits[i].def == store.items[i].def
    modifies store.items
    ensures Views(store.items) == edits
  {
    var n := 0;
    while n < |edits|
      invariant n <= |edits|
      invariant forall j :: 0 <= j < n ==> store.items[j].View() == edits[j]
    {
      store.items[n].value, store.items[n].text := edits[n].value, edits[n].text;
      n := n + 1;
    }
    ViewsAre(store.items, edits);
  }

  /** A page is packed, the items of one of its stores are changed in any way, and the store is
      read again: its items hold what they held when the page was packed, except that those
      that are not stored stay changed, and the flash is not stale. */
  method SaveEditRead(page: ConfigPage, s: nat, edits: seq<Item>)
    requires s < |page.stores| && page.stores[s].Valid() && CanSave(page)
    requires |edits| == |page.stores[s].items|
    requires forall i :: 0 <= i < |edits| ==> edits[i].def == page.stores[s].items[i].def
    modifies page.mem, page.stores[s], page.stores[s].items
    ensures var items := page.stores[s].items;
      forall i :: 0 <= i < |items| ==> items[i].View() == Restored(old(items[i].View()), edits[i])
    ensures page.stores[s].staleEffect && !page.stores[s].staleFlash
  {
    ghost var all := Views(AllItems(page.stores));
    ghost var from := ViewsOfStore(page.stores, s);
    Save(page, all);
    ghost var saved := page.mem[..];
    Edit(page.stores[s], edits);
    assert page.mem[..] == saved;
    ReadBack(page.mem, page.stores[s], edits, all, from);
  }

  method Save(page: ConfigPage, ghost all: seq<Item>)
    requires CanSave(page) && all == Views(AllItems(page.stores))
    modifies page.mem
    ensures Saved(page.mem[..], all)
  {
    AllPacked(all, page.mem.Length - HEADER);
    var size := page.Pack();
    assert Views(AllItems(page.stores)) == old(Views(AllItems(page.stores)));
  }

  method ReadBack(mem: array<Byte>, store: ConfigStore, ghost now: seq<Item>, ghost all: seq<Item>, ghost from: nat)
    requires store.Valid() && Views(store.items) == now && from + |now| <= |all|
    requires Saved(mem[..], all)
    requires forall i :: 0 <= i < |now| ==> now[i].def == all[from + i].def
    modifies store, store.items
    ensures forall i :: 0 <= i < |now| ==> store.items[i].View() == Restored(all[from + i], now[i])
    ensures store.staleEffect && !store.staleFlash
  {
    ReadsBack(mem[..], all, from, now);
    store.Read(mem);
  }

  /** What reading the page gives is in range, so that clamping leaves it. */
  lemma ReadsBack(page: seq<Byte>, all: seq<Item>, from: nat, now: seq<Item>)
    requires Saved(page, all)
    requires from + |now| <= |all| && forall i :: 0 <= i < |now| ==> now[i].def == all[from + i].def
    ensures WellFormed(page, HEADER)
    ensures forall i :: 0 <= i < |now| ==>
      Clamped(UnpackFrom(page, HEADER, now)[i]) == Restored(all[from + i], now[i])
    ensures forall i :: 0 <= i < |now| ==> InRange(UnpackFrom(page, HEADER, now)[i])
  {
    StoreRoundTrip(page, all, from, now);
  }
}
