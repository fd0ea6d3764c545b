/**
 * The wishlist screen's list operations. Each builds a new list and hands it to `onUpdate`; the
 * functions here return that list, or `None` when `onUpdate` is not called.
 */
module Wishlist {
  import opened Wrappers
  import opened JsValues
  import opened EventData

  /** `handleSubmit`: append one item with the form's fields, no selections, `id` from `Date.now()`. */
  function AddItem(wishlist: seq<Item>, form: Form, clock: int, now: string): (r: seq<Item>)
    ensures |r| == |wishlist| + 1 && r[..|wishlist|] == wishlist
    ensures r[|wishlist|].id == NumberString(clock) && r[|wishlist|].form == form
    ensures r[|wishlist|].selectedBy == [] && r[|wishlist|].createdAt == now
  {
    wishlist + [Item(NumberString(clock), form, [], now)]
  }

  /** `wishlist.filter(item => item.id !== itemId)` */
  function WithoutItem(wishlist: seq<Item>, itemId: string): (r: seq<Item>)
    ensures |r| <= |wishlist|
    decreases |wishlist|
  {
    if |wishlist| == 0 then []
    else (if wishlist[0].id == itemId then [] else [wishlist[0]]) + WithoutItem(wishlist[1..], itemId)
  }

  /** The filter removes every item with the id, and only those. */
  lemma {:induction false} WithoutItemExact(wishlist: seq<Item>, itemId: string, x: Item)
    ensures x in WithoutItem(wishlist, itemId) <==> x in wishlist && x.id != itemId
    decreases |wishlist|
  {
    if |wishlist| > 0 {
      WithoutItemExact(wishlist[1..], itemId, x);
      assert wishlist == [wishlist[0]] + wishlist[1..];
    }
  }

  /** The filter keeps the order of what it keeps: it distributes over concatenation. */
  lemma {:induction false} WithoutItemAppend(a: seq<Item>, b: seq<Item>, itemId: string)
    ensures WithoutItem(a + b, itemId) == WithoutItem(a, itemId) + WithoutItem(b, itemId)
    decreases |a|
  {
    if |a| > 0 {
      var head := if a[0].id == itemId then [] else [a[0]];
      WithoutItemAppend(a[1..], b, itemId);
      assert (a + b)[0] == a[0] && (a + b)[1..] == a[1..] + b;
      assert WithoutItem(a + b, itemId) == head + WithoutItem(a[1..] + b, itemId);
      assert WithoutItem(a, itemId) == head + WithoutItem(a[1..], itemId);
    } else {
      assert a + b == b;
    }
  }

  /** `handleDelete`: with the user's confirmation, every item with that id goes; without it, no update. */
  function DeleteItem(wishlist: seq<Item>, itemId: string, confirmed: bool): (r: Option<seq<Item>>)
    ensures r.Some? <==> confirmed
    ensures r.Some? ==> r.value == WithoutItem(wishlist, itemId)
  {
    if confirmed then Some(WithoutItem(wishlist, itemId)) else None
  }

  /** `selectedBy.filter(id => id !== guestId)` */
  function WithoutGuest(s: seq<string>, guestId: string): (r: seq<string>)
    ensures forall x :: x in r <==> x in s && x != guestId
    ensures guestId !in s ==> r == s
    decreases |s|
  {
    if |s| == 0 then []
    else (if s[0] == guestId then [] else [s[0]]) + WithoutGuest(s[1..], guestId)
  }

  /** The toggle in `handleSelect`: drop every occurrence of a guest who had chosen, append one who had not. */
  function Toggle(s: seq<string>, guestId: string): (r: seq<string>)
    ensures guestId in s ==> guestId !in r && forall x :: x != guestId ==> (x in r <==> x in s)
    ensures guestId !in s ==> r == s + [guestId]
  {
    if guestId in s then WithoutGuest(s, guestId) else s + [guestId]
  }

  /** For a guest who had not chosen the gift, choosing and then un-choosing restores the selection. */
  lemma {:induction false} ToggleTwice(s: seq<string>, guestId: string)
    requires guestId !in s
    ensures Toggle(Toggle(s, guestId), guestId) == s
  {
    WithoutGuestAppend(s, guestId);
  }

  lemma {:induction false} WithoutGuestAppend(s: seq<string>, guestId: string)
    requires guestId !in s
    ensures WithoutGuest(s + [guestId], guestId) == s
    decreases |s|
  {
    if |s| == 0 {
      assert s + [guestId] == [guestId];
    } else {
      WithoutGuestAppend(s[1..], guestId);
      assert (s + [guestId])[1..] == s[1..] + [guestId];
    }
  }

  /** `handleSelect`: toggle the guest on the items with that id; the others, and the length, stay. */
  function Select(wishlist: seq<Item>, itemId: string, guestId: string): (r: seq<Item>)
    ensures |r| == |wishlist|
    ensures forall i :: 0 <= i < |wishlist| && wishlist[i].id != itemId ==> r[i] == wishlist[i]
    ensures forall i :: 0 <= i < |wishlist| && wishlist[i].id == itemId ==>
              r[i] == wishlist[i].(selectedBy := Toggle(wishlist[i].selectedBy, guestId))
  {
    seq(|wishlist|, i requires 0 <= i < |wishlist| =>
      if wishlist[i].id == itemId then wishlist[i].(selectedBy := Toggle(wishlist[i].selectedBy, guestId)) else wishlist[i])
  }

  /** When no item's selection holds the guest, selecting twice gives back the original list. */
  lemma SelectTwice(wishlist: seq<Item>, itemId: string, guestId: string)
    requires forall i :: 0 <= i < |wishlist| && wishlist[i].id == itemId ==> guestId !in wishlist[i].selectedBy
    ensures Select(Select(wishlist, itemId, guestId), itemId, guestId) == wishlist
  {
    forall i | 0 <= i < |wishlist| && wishlist[i].id == itemId {
      ToggleTwice(wishlist[i].selectedBy, guestId);
    }
  }

  /** `getGuestName`: the name of the first guest with that id, or `'Неизвестный гость'`. */
  function GuestName(guests: seq<Guest>, guestId: string): (r: string)
    ensures (forall g :: g in guests ==> g.id != guestId) ==> r == "Неизвестный гость"
    ensures forall i :: 0 <= i < |guests| && guests[i].id == guestId && (forall j :: 0 <= j < i ==> guests[j].id != guestId) ==>
              r == guests[i].name
    decreases |guests|
  {
    if |guests| == 0 then "Неизвестный гость"
    else if guests[0].id == guestId then guests[0].name
    else
      var r := GuestName(guests[1..], guestId);
      assert forall i :: 1 <= i < |guests| ==> guests[i] == guests[1..][i - 1];
      r
  }

  /** `wishlist.filter(w => w.selectedBy.length > 0).length` */
  function SelectedCount(wishlist: seq<Item>): (n: nat)
    ensures n <= |wishlist|
    decreases |wishlist|
  {
    if |wishlist| == 0 then 0
    else (if |wishlist[0].selectedBy| > 0 then 1 else 0) + SelectedCount(wishlist[1..])
  }

  /** `wishlist.filter(w => w.selectedBy.length === 0).length` */
  function AvailableCount(wishlist: seq<Item>): (n: nat)
    decreases |wishlist|
  {
    if |wishlist| == 0 then 0
    else (if |wishlist[0].selectedBy| == 0 then 1 else 0) + AvailableCount(wishlist[1..])
  }

  /** Every gift is counted once, as selected or as available. */
  lemma {:induction false} CountsCoverWishlist(wishlist: seq<Item>)
    ensures SelectedCount(wishlist) + AvailableCount(wishlist) == |wishlist|
    decreases |wishlist|
  {
    if |wishlist| > 0 {
      CountsCoverWishlist(wishlist[1..]);
    }
  }
}
