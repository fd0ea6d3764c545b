/** The dashboard's figures: guest counts by status and the seven summary cards. */
module Dashboard {
  import opened EventData
  import Wishlist

  /** `guests.filter(g => g.status === status).length` */
  function StatusCount(guests: seq<Guest>, status: string): (n: nat)
    ensures n <= |guests|
    decreases |guests|
  {
    if |guests| == 0 then 0
    else (if guests[0].status == status then 1 else 0) + StatusCount(guests[1..], status)
  }

  /** The count is the number of guests with exactly that status: it adds up over any split of the list. */
  lemma {:induction false} StatusCountAppend(a: seq<Guest>, b: seq<Guest>, status: string)
    ensures StatusCount(a + b, status) == StatusCount(a, status) + StatusCount(b, status)
    decreases |a|
  {
    if |a| > 0 {
      StatusCountAppend(a[1..], b, status);
      assert (a + b)[1..] == a[1..] + b;
    } else {
      assert a + b == b;
    }
  }

  /** Counts for different statuses never overlap: together they are at most the number of guests. */
  lemma {:induction false} StatusCountsBounded(guests: seq<Guest>)
    ensures StatusCount(guests, "confirmed") + StatusCount(guests, "pending") + StatusCount(guests, "declined") <= |guests|
    ensures (forall g :: g in guests ==> g.status in {"confirmed", "pending", "declined"}) ==>
              StatusCount(guests, "confirmed") + StatusCount(guests, "pending") + StatusCount(guests, "declined") == |guests|
    decreases |guests|
  {
    if |guests| > 0 {
      StatusCountsBounded(guests[1..]);
      assert forall g :: g in guests[1..] ==> g in guests;
    }
  }

  /** One summary card: its title and figure (icon and colours are presentation). */
  datatype Stat = Stat(title: string, value: int)

  /** The `stats` array, in display order. */
  function Stats(guests: seq<Guest>, wishlist: seq<Item>, photoCount: nat): (r: seq<Stat>)
    ensures |r| == 7
  {
    [ Stat("Всего гостей", |guests|),
      Stat("Подтвердили", StatusCount(guests, "confirmed")),
      Stat("Ожидают ответа", StatusCount(guests, "pending")),
      Stat("Отказались", StatusCount(guests, "declined")),
      Stat("Подарки в вишлисте", |wishlist|),
      Stat("Выбранные подарки", Wishlist.SelectedCount(wishlist)),
      Stat("Фотографий", photoCount) ]
  }

  /**
   * The cards come in a fixed order with fixed titles and agree with each other: the three status
   * cards add up to at most the guest card, and the selected-gifts card is at most the wishlist card.
   */
  lemma StatsConsistent(guests: seq<Guest>, wishlist: seq<Item>, photoCount: nat)
    ensures var r := Stats(guests, wishlist, photoCount);
      && [r[0].title, r[1].title, r[2].title, r[3].title, r[4].title, r[5].title, r[6].title] ==
         ["Всего гостей", "Подтвердили", "Ожидают ответа", "Отказались", "Подарки в вишлисте", "Выбранные подарки", "Фотографий"]
      && r[0].value == |guests| && r[4].value == |wishlist| && r[6].value == photoCount
      && r[1].value == StatusCount(guests, "confirmed")
      && r[2].value == StatusCount(guests, "pending")
      && r[3].value == StatusCount(guests, "declined")
      && r[5].value == Wishlist.SelectedCount(wishlist)
      && r[1].value + r[2].value + r[3].value <= r[0].value
      && 0 <= r[5].value <= r[4].value
  {
    StatusCountsBounded(guests);
  }
}
